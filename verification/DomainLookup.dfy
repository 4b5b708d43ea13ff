/** Looking a name up in the table, and the rule sets the answers stand for. */
module DomainLookup {
  import opened Basics
  import opened DomainTable
  import opened Labels
  import opened DomainBase

  function Star(s: Path): Path {
    ["*"] + s
  }

  /** The wildcard node below the longest suffix of s that has one. */
  function Nearest(t: Table, s: Path): Option<Path> {
    if s == [] then None else if View(t, Star(s)).Some? then Some(Star(s)) else Nearest(t, s[1..])
  }

  /** The node a name resolves to. */
  function Target(t: Table, q: Path): Option<Path>
    requires q != []
  {
    if View(t, q).Some? then if IsChild(View(t, q).value) then Some(q) else None else Nearest(t, q[1..])
  }

  function DomainAt(t: Table, p: Path): Domain
    requires p != [] && View(t, p).Some?
  {
    Domain(Id(t, p).value, Id(t, p[1..]).value, p[0], Scan(View(t, p).value))
  }

  function Answer(t: Table, name: string): Result<Domain> {
    if |name| < 2 || |Parts(name)| < 2 then Err(TooShort)
    else
      var q := Parts(name);
      var p := Target(t, q);
      if p.Some? then TargetStored(t, q); Ok(DomainAt(t, p.value))
      else Err(if View(t, q).Some? then NoMatch else NoRows)
  }

  lemma {:induction false} NearestStored(t: Table, s: Path)
    ensures Nearest(t, s).Some? ==> Nearest(t, s).value != [] && View(t, Nearest(t, s).value).Some?
  {
    if s != [] && View(t, Star(s)).None? { NearestStored(t, s[1..]); }
  }

  lemma TargetStored(t: Table, q: Path)
    requires q != []
    ensures Target(t, q).Some? ==> Target(t, q).value != [] && View(t, Target(t, q).value).Some?
  {
    NearestStored(t, q[1..]);
  }

  method LookupRecord(t: Table, name: string, parentId: nat) returns (r: Result<Domain>)
    ensures Slot(parentId, name) !in t.rows ==> r == Err(NoRows)
    ensures Slot(parentId, name) in t.rows ==>
      var row := t.rows[Slot(parentId, name)]; r == Ok(Domain(row.id, parentId, name, Scan(row.category)))
  {
    if Slot(parentId, name) !in t.rows {
      return Err(NoRows);
    }
    var row := t.rows[Slot(parentId, name)];
    return Ok(Domain(row.id, parentId, name, Scan(row.category)));
  }

  /** A record found below a stored node is the domain at the path one label longer. */
  lemma RecordAt(t: Table, p: Path, i: nat)
    requires i < |p| && Id(t, p[i + 1..]).Some?
    ensures var slot := Slot(Id(t, p[i + 1..]).value, p[i]);
            && (View(t, p[i..]).Some? <==> slot in t.rows)
            && (slot in t.rows ==> Id(t, p[i..]) == Some(t.rows[slot].id))
            && (slot in t.rows ==>
                  DomainAt(t, p[i..]) == Domain(t.rows[slot].id, slot.parent, slot.name, Scan(t.rows[slot].category)))
  {
    assert p[i..] == [p[i]] + p[i + 1..] && p[i..][1..] == p[i + 1..];
  }

  lemma StarAt(t: Table, s: Path)
    requires s != [] && Id(t, s).Some?
    ensures var slot := Slot(Id(t, s).value, "*");
            && (View(t, Star(s)).Some? <==> slot in t.rows)
            && (slot in t.rows ==>
                  DomainAt(t, Star(s)) == Domain(t.rows[slot].id, slot.parent, "*", Scan(t.rows[slot].category)))
  {
    assert Star(s)[1..] == s;
  }

  /** Below a missing node there is nothing, and no wildcard. */
  lemma {:induction false} MissingBelow(t: Table, p: Path, i: nat)
    requires i < |p| && Id(t, p[i..]).None?
    ensures Id(t, p).None? && View(t, p).None? && Nearest(t, p[1..]) == Nearest(t, p[i + 1..])
    decreases i
  {
    if i > 0 {
      assert p[i - 1..][1..] == p[i..];
      MissingBelow(t, p, i - 1);
      assert Star(p[i..])[1..] == p[i..];
      assert Nearest(t, p[i..]) == Nearest(t, p[i + 1..]) by { assert p[i..][1..] == p[i + 1..]; }
    } else {
      assert p[0..] == p;
    }
  }

  /** The wildcard seen so far, as the record it is. */
  function Record(t: Table, p: Option<Path>): Option<Domain>
    requires p.Some? ==> p.value != [] && View(t, p.value).Some?
  {
    if p.None? then None else Some(DomainAt(t, p.value))
  }

  method Lookup(t: Table, name: string) returns (r: Result<Domain>)
    ensures r == Answer(t, name)
  {
    if |name| < 2 {
      return Err(TooShort);
    }
    var parts := Parts(name);
    if |parts| < 2 {
      return Err(TooShort);
    }
    var n := |parts| - 1;
    assert parts[n + 1..] == [];
    RecordAt(t, parts, n);
    var top := LookupRecord(t, parts[n], 0);
    if top.Err? {
      MissingBelow(t, parts, n);
      return Err(top.error);
    }
    r := Descent(t, parts, top.value);
  }

  method Descent(t: Table, parts: Path, top: Domain) returns (r: Result<Domain>)
    requires |parts| >= 2 && View(t, parts[|parts| - 1..]).Some? && top == DomainAt(t, parts[|parts| - 1..])
    ensures r.Ok? <==> Target(t, parts).Some?
    ensures r.Ok? ==> Target(t, parts).value != [] && View(t, Target(t, parts).value).Some?
    ensures r.Ok? ==> r.value == DomainAt(t, Target(t, parts).value)
    ensures r.Err? ==> r.error == if View(t, parts).Some? then NoMatch else NoRows
  {
    var parent, wildcard := top, None;
    var i := |parts| - 2;
    assert parts[i + 2..] == [];
    while i >= 0
      invariant -1 <= i <= |parts| - 2
      invariant View(t, parts[i + 1..]).Some? && parent == DomainAt(t, parts[i + 1..])
      invariant (NearestStored(t, parts[i + 2..]); wildcard == Record(t, Nearest(t, parts[i + 2..])))
      decreases i
    {
      RecordAt(t, parts, i);
      StarAt(t, parts[i + 1..]);
      assert parts[i + 1..][1..] == parts[i + 2..];
      NearestStored(t, parts[i + 1..]);
      var sub := LookupRecord(t, parts[i], parent.id);
      var wc := LookupRecord(t, "*", parent.id);
      if wc.Ok? {
        wildcard := Some(wc.value);
      }
      if sub.Err? {
        MissingBelow(t, parts, i);
        return if wildcard.Some? then Ok(wildcard.value) else Err(sub.error);
      }
      parent := sub.value;
      i := i - 1;
    }
    assert parts[0..] == parts;
    ChildReadsBack(View(t, parts).value);
    return if parent.categories == [] then Err(NoMatch) else Ok(parent);
  }
}
