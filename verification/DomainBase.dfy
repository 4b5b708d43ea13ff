/** Writing domain rules into the table and looking names up in it. */
module DomainBase {
  import opened Basics
  import opened DomainTable
  import opened Labels

  datatype Error = TooShort | BadPattern | NoCategories | Exists | NoRows | NoMatch
  datatype Result<T> = Ok(value: T) | Err(error: Error)

  datatype Domain = Domain(id: nat, parentId: nat, name: string, categories: seq<string>)

  // ---- categories as column text --------------------------------------------------------

  function Value(c: seq<string>): Option<string> {
    if c == [] then None else Some(Join(c, ','))
  }

  function Scan(v: Option<string>): seq<string> {
    if v.None? || v.value == "" then [] else Split(v.value, ',')
  }

  /** Reading back gives what was written, exactly for lists of comma-free names other than one blank. */
  lemma CategoriesRoundTrip(c: seq<string>)
    ensures Scan(Value(c)) == c <==> c == [] || (c != [""] && forall x <- c :: !Has(x, ','))
  {
    JoinEmptyIff(c, ',');
    SplitJoinIff(c, ',');
  }

  predicate IsChild(v: Option<string>) {
    v.Some? && v.value != ""
  }

  lemma ChildReadsBack(v: Option<string>)
    ensures IsChild(v) <==> Scan(v) != []
  {
  }

  // ---- names --------------------------------------------------------------------------

  function Normalize(s: string): string
    requires s != ""
  {
    if s[|s| - 1] == '.' then s[..|s| - 1] else s
  }

  function Parts(s: string): Path
    requires s != ""
  {
    Split(Normalize(s), '.')
  }

  predicate WellFormed(p: Path) {
    |p| >= 2 && forall i :: 0 < i < |p| ==> p[i] != "*"
  }

  method Validate(parts: Path) returns (ok: bool)
    ensures ok <==> WellFormed(parts)
    ensures ok <==> |parts| >= 2 && forall i :: 1 <= i < |parts| ==> parts[i] != "*"
  {
    if |parts| < 2 {
      return false;
    }
    for i := 0 to |parts|
      invariant forall j :: 0 < j < i ==> parts[j] != "*"
    {
      if parts[i] == "*" && i != 0 {
        return false;
      }
    }
    return true;
  }

  // ---- writing ------------------------------------------------------------------------

  function Verdict(t: Table, p: Path, cats: seq<string>): Result<()> {
    if !WellFormed(p) then Err(BadPattern)
    else if cats == [] then Err(NoCategories)
    else if View(t, p).Some? && IsChild(View(t, p).value) then Err(Exists)
    else Ok(())
  }

  /** The path grown, and the node at its end given the category text. */
  function Written(t: Table, p: Path, v: Option<string>): Table {
    var u := Grown(t, p);
    match Id(u, p)
    case None => u
    case Some(id) => Recategorized(u, id, v)
  }

  lemma WrittenView(t: Table, p: Path, v: Option<string>, q: Path)
    requires Sound(t) && p != []
    ensures Sound(Written(t, p, v))
    ensures View(Written(t, p, v), q) ==
      if q == p then Some(v) else if View(t, q).None? && Suffix(q, p) then Some(None) else View(t, q)
  {
    GrownIs(t, p);
    GrownView(t, p, q);
    RecatView(Grown(t, p), p, v, q);
  }

  lemma InsertThenRecat(t: Table, parent: nat, name: string, v: Option<string>)
    requires Slot(parent, name) !in t.rows
    ensures Recategorized(Insert(t, parent, name, v), t.last + 1, v) ==
            Recategorized(Insert(t, parent, name, None), t.last + 1, v)
  {
    var a, b := Insert(t, parent, name, v), Insert(t, parent, name, None);
    assert a.rows.Keys == b.rows.Keys;
    assert Recategorized(a, t.last + 1, v).rows == Recategorized(b, t.last + 1, v).rows;
  }

  class Writer {
    var table: Table

    constructor ()
      ensures table == EMPTY
    {
      table := EMPTY;
    }

    /** Works on a transaction that is kept only when everything succeeds. */
    method Write(domain: string, cats: seq<string>) returns (r: Result<()>)
      requires domain != "" && Sound(table)
      modifies this
      ensures Sound(table) && r == Verdict(old(table), Parts(domain), cats)
      ensures table == if r.Ok? then Written(old(table), Parts(domain), Value(cats)) else old(table)
    {
      var parts := Parts(domain);
      var ok := Validate(parts);
      if !ok {
        return Err(BadPattern);
      }
      if cats == [] {
        return Err(NoCategories);
      }
      var tx, parent := Walk(table, parts);
      r, tx := Leaf(tx, parent, parts, cats, table);
      if r.Ok? {
        table := tx;
      }
    }

    /** Down from the top-level label to the parent of the node, adding what is missing. */
    static method Walk(t: Table, parts: Path) returns (tx: Table, parent: nat)
      requires Sound(t) && parts != []
      ensures tx == Grown(t, parts[1..]) && Id(tx, parts[1..]) == Some(parent)
    {
      tx, parent := t, 0;
      var i := |parts| - 1;
      assert parts[i + 1..] == [];
      while i > 0
        invariant 0 <= i < |parts| && tx == Grown(t, parts[i + 1..])
        invariant Id(tx, parts[i + 1..]) == Some(parent)
      {
        GrownStep(t, parts, i);
        tx, parent := Descend(tx, parent, parts[i]);
        i := i - 1;
      }
    }

    /** The node itself: refused if it carries categories, else added or taken over. */
    static method Leaf(tx: Table, parent: nat, parts: Path, cats: seq<string>, ghost t: Table)
      returns (r: Result<()>, tx': Table)
      requires Sound(t) && parts != [] && tx == Grown(t, parts[1..]) && Id(tx, parts[1..]) == Some(parent)
      ensures r == if View(t, parts).Some? && IsChild(View(t, parts).value) then Err(Exists) else Ok(())
      ensures r.Ok? ==> Sound(tx') && tx' == Written(t, parts, Value(cats))
    {
      LeafSeen(t, parts);
      LeafWritten(t, parts, Value(cats));
      var leaf := Slot(parent, parts[0]);
      if leaf in tx.rows && IsChild(tx.rows[leaf].category) {
        return Err(Exists), tx;
      }
      tx' := Leafed(tx, leaf, Value(cats));
      var id := tx'.rows[leaf].id;
      assert id != 0 && Affected(tx', id) == 1;
      tx' := Recategorized(tx', id, Value(cats));
      return Ok(()), tx';
    }

    /** One label down: the row that is there, or a new one without category. */
    static method Descend(tx: Table, parent: nat, name: string) returns (tx': Table, id: nat)
      ensures tx' == if Slot(parent, name) in tx.rows then tx else Insert(tx, parent, name, None)
      ensures id == if Slot(parent, name) in tx.rows then tx.rows[Slot(parent, name)].id else tx.last + 1
    {
      if Slot(parent, name) in tx.rows {
        return tx, tx.rows[Slot(parent, name)].id;
      }
      return Insert(tx, parent, name, None), tx.last + 1;
    }
  }

  /** One round of the loop grows the path by one label. */
  lemma GrownCons(t: Table, q: Path, name: string, r: Path)
    requires Sound(t) && q != [] && name == q[0] && r == q[1..]
    ensures Grown(t, q) == Added(Grown(t, r), r, name)
    ensures Sound(Grown(t, r)) && Id(Grown(t, r), r).Some?
    ensures var v := Grown(t, r); var slot := Slot(Id(v, r).value, name);
            Id(Grown(t, q), q) == Some(if slot in v.rows then v.rows[slot].id else v.last + 1)
  {
    GrownIs(t, r);
    var v := Grown(t, r);
    if Slot(Id(v, r).value, name) !in v.rows {
      InsertId(v, r, name, None, q);
      assert q == [name] + r;
    }
  }

  lemma GrownStep(t: Table, p: Path, i: nat)
    requires Sound(t) && i < |p|
    ensures Grown(t, p[i..]) == Added(Grown(t, p[i + 1..]), p[i + 1..], p[i])
    ensures Sound(Grown(t, p[i + 1..])) && Id(Grown(t, p[i + 1..]), p[i + 1..]).Some?
    ensures var v := Grown(t, p[i + 1..]); var slot := Slot(Id(v, p[i + 1..]).value, p[i]);
            Id(Grown(t, p[i..]), p[i..]) == Some(if slot in v.rows then v.rows[slot].id else v.last + 1)
  {
    assert p[i..][1..] == p[i + 1..];
    GrownCons(t, p[i..], p[i], p[i + 1..]);
  }

  /** Growing the way to a node leaves the node itself as it was. */
  lemma LeafSeen(t: Table, p: Path)
    requires Sound(t) && p != []
    ensures Id(Grown(t, p[1..]), p[1..]).Some?
    ensures var v := Grown(t, p[1..]); var slot := Slot(Id(v, p[1..]).value, p[0]);
            View(t, p) == if slot in v.rows then Some(v.rows[slot].category) else None
  {
    GrownIs(t, p[1..]);
    GrownView(t, p[1..], p);
  }

  /** The row to write to: the one that is there, or a new one with the categories. */
  function Leafed(w: Table, leaf: Slot, v: Option<string>): Table {
    if leaf in w.rows then w else Insert(w, leaf.parent, leaf.name, v)
  }

  lemma LeafStep(w: Table, leaf: Slot, v: Option<string>)
    requires Sound(w) && leaf.parent <= w.last
    ensures var u, a := Leafed(w, leaf, v), Leafed(w, leaf, None);
            && leaf in u.rows && u.rows[leaf].id == a.rows[leaf].id != 0
            && Affected(u, u.rows[leaf].id) == 1
            && Recategorized(u, u.rows[leaf].id, v) == Recategorized(a, u.rows[leaf].id, v)
  {
    if leaf !in w.rows {
      InsertThenRecat(w, leaf.parent, leaf.name, v);
      InsertSound(w, leaf.parent, leaf.name, v);
    }
    AffectsOne(Leafed(w, leaf, v), leaf);
  }

  /** Adding the node with its categories, or taking it over, and then setting them by id. */
  lemma LeafWritten(t: Table, p: Path, v: Option<string>)
    requires Sound(t) && p != []
    ensures Id(Grown(t, p[1..]), p[1..]).Some? && Sound(Written(t, p, v))
    ensures var w := Grown(t, p[1..]);
            var leaf := Slot(Id(w, p[1..]).value, p[0]);
            var u := Leafed(w, leaf, v);
            leaf in u.rows && u.rows[leaf].id != 0 && Affected(u, u.rows[leaf].id) == 1
            && Recategorized(u, u.rows[leaf].id, v) == Written(t, p, v)
  {
    WrittenView(t, p, v, p);
    GrownIs(t, p[1..]);
    var w := Grown(t, p[1..]);
    IdFacts(w, p[1..]);
    LeafStep(w, Slot(Id(w, p[1..]).value, p[0]), v);
    LeafId(t, p);
  }

  lemma LeafId(t: Table, p: Path)
    requires Sound(t) && p != []
    ensures Id(Grown(t, p[1..]), p[1..]).Some?
    ensures var w := Grown(t, p[1..]);
            var leaf := Slot(Id(w, p[1..]).value, p[0]);
            Grown(t, p) == Leafed(w, leaf, None) && Id(Grown(t, p), p) == Some(Leafed(w, leaf, None).rows[leaf].id)
  {
    GrownCons(t, p, p[0], p[1..]);
  }
}
