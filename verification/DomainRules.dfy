/** Rule sets: what any sequence of writes makes every lookup answer. */
module DomainRules {
  import opened Basics
  import opened DomainTable
  import opened Labels
  import opened DomainBase
  import opened DomainLookup

  /** Domains and the category text given for each. */
  type Rules = map<Path, string>

  /** A name is stored as a node if it is the end of some domain that has a rule. */
  ghost predicate Stored(w: Rules, q: Path) {
    exists d :: d in w && Suffix(q, d)
  }

  /** The rule "*.u" for the longest end u of s that has one. */
  function Best(w: Rules, s: Path): Option<Path> {
    if s == [] then None else if Star(s) in w then Some(Star(s)) else Best(w, s[1..])
  }

  /** The rule that applies to a name. */
  ghost function Match(w: Rules, q: Path): Option<Path>
    requires q != []
  {
    if Stored(w, q) then if q in w && w[q] != "" then Some(q) else None else Best(w, q[1..])
  }

  ghost predicate Longest(w: Rules, s: Path, u: Path) {
    Suffix(u, s) && Star(u) in w && forall v :: Suffix(v, s) && Star(v) in w ==> |v| <= |u|
  }

  /** Best is the wildcard rule for the longest end, and there is none only if no end has one. */
  lemma {:induction false} BestIsLongest(w: Rules, s: Path)
    ensures Best(w, s).None? ==> forall u :: Suffix(u, s) ==> Star(u) !in w
    ensures Best(w, s).Some? ==> exists u :: Best(w, s) == Some(Star(u)) && Longest(w, s, u)
  {
    if s != [] {
      if Star(s) in w {
        assert Suffix(s, s) && Longest(w, s, s);
      } else {
        BestIsLongest(w, s[1..]);
        forall u ensures Suffix(u, s) && Star(u) in w <==> Suffix(u, s[1..]) && Star(u) in w { SuffixTail(u, s); }
        if Best(w, s).Some? {
          var u :| Best(w, s[1..]) == Some(Star(u)) && Longest(w, s[1..], u);
          assert Longest(w, s, u);
        }
      }
    }
  }

  ghost predicate Legal(w: Rules) {
    forall d <- w :: WellFormed(d)
  }

  /** The table holds exactly the nodes of the rule set, with their texts. */
  ghost predicate Represents(t: Table, w: Rules) {
    forall q :: View(t, q) == Expected(w, q)
  }

  ghost function Expected(w: Rules, q: Path): Option<Option<string>> {
    if q in w then Some(Some(w[q])) else if Stored(w, q) then Some(None) else None
  }

  lemma OwnSuffix(w: Rules, q: Path)
    requires q in w && q != []
    ensures Stored(w, q)
  {
    assert Suffix(q, q);
  }

  /** A wildcard node is a wildcard rule: the star cannot stand further down a domain. */
  lemma StarIsRule(w: Rules, s: Path)
    requires Legal(w)
    ensures Stored(w, Star(s)) <==> Star(s) in w
  {
    if Star(s) in w {
      OwnSuffix(w, Star(s));
    }
    if Stored(w, Star(s)) {
      var d :| d in w && Suffix(Star(s), d);
      assert d[|d| - |Star(s)|] == Star(s)[0] == "*";
      assert d == d[0..];
    }
  }

  lemma {:induction false} NearestIsBest(t: Table, w: Rules, s: Path)
    requires Represents(t, w) && Legal(w)
    ensures Nearest(t, s) == Best(w, s)
  {
    if s != [] {
      NearestIsBest(t, w, s[1..]);
      StarIsRule(w, s);
      assert View(t, Star(s)) == Expected(w, Star(s));
    }
  }

  lemma TargetIsMatch(t: Table, w: Rules, q: Path)
    requires Represents(t, w) && Legal(w) && q != []
    ensures Target(t, q) == Match(w, q)
  {
    NearestIsBest(t, w, q[1..]);
    assert View(t, q) == Expected(w, q);
    if q in w { OwnSuffix(w, q); }
  }

  // ---- runs of writes ---------------------------------------------------------------------

  datatype Request = Request(domain: string, cats: seq<string>)

  /** Whether a rule set takes a further rule. */
  predicate Accepts(w: Rules, p: Path, cats: seq<string>) {
    WellFormed(p) && cats != [] && (p in w ==> w[p] == "")
  }

  lemma AcceptsIff(t: Table, w: Rules, p: Path, cats: seq<string>)
    requires Represents(t, w)
    ensures Verdict(t, p, cats).Ok? <==> Accepts(w, p, cats)
  {
    assert View(t, p) == Expected(w, p);
  }

  lemma WriteRepresents(t: Table, w: Rules, p: Path, text: string)
    requires Sound(t) && Represents(t, w) && p != []
    ensures Represents(Written(t, p, Some(text)), w[p := text])
  {
    var u, w' := Written(t, p, Some(text)), w[p := text];
    forall q ensures View(u, q) == Expected(w', q) {
      WrittenView(t, p, Some(text), q);
      assert View(t, q) == Expected(w, q);
      StoredAfter(w, p, text, q);
    }
  }

  lemma StoredAfter(w: Rules, p: Path, text: string, q: Path)
    ensures Stored(w[p := text], q) <==> Stored(w, q) || Suffix(q, p)
  {
    var w' := w[p := text];
    if Suffix(q, p) {
      assert p in w';
    }
    if Stored(w, q) {
      var d :| d in w && Suffix(q, d);
      assert d in w';
    }
  }

  function Exec(reqs: seq<Request>): Table {
    if reqs == [] then EMPTY
    else
      var t, r := Exec(reqs[..|reqs| - 1]), reqs[|reqs| - 1];
      if r.domain != "" && Verdict(t, Parts(r.domain), r.cats).Ok?
      then Written(t, Parts(r.domain), Value(r.cats)) else t
  }

  function RulesOf(reqs: seq<Request>): Rules {
    if reqs == [] then map[]
    else
      var w, r := RulesOf(reqs[..|reqs| - 1]), reqs[|reqs| - 1];
      if r.domain != "" && Accepts(w, Parts(r.domain), r.cats) then w[Parts(r.domain) := Join(r.cats, ',')] else w
  }

  lemma {:induction false} EmptyView(q: Path)
    ensures View(EMPTY, q) == None
  {
  }

  /** After any writes, accepted or refused, the table represents the accepted rules. */
  lemma {:induction false} RunRepresents(reqs: seq<Request>)
    ensures Sound(Exec(reqs)) && Represents(Exec(reqs), RulesOf(reqs)) && Legal(RulesOf(reqs))
  {
    if reqs == [] {
      forall q ensures View(EMPTY, q) == Expected(map[], q) { EmptyView(q); }
    } else {
      var before, r := reqs[..|reqs| - 1], reqs[|reqs| - 1];
      RunRepresents(before);
      if r.domain != "" {
        var p := Parts(r.domain);
        AcceptsIff(Exec(before), RulesOf(before), p, r.cats);
        if Verdict(Exec(before), p, r.cats).Ok? {
          WriteRepresents(Exec(before), RulesOf(before), p, Join(r.cats, ','));
          WrittenView(Exec(before), p, Value(r.cats), p);
        }
      }
    }
  }

  /** Every lookup after every run of writes answers with the rule that matches declaratively. */
  lemma LookupMatches(reqs: seq<Request>, name: string)
    requires |name| >= 2 && |Parts(name)| >= 2
    ensures var m := Match(RulesOf(reqs), Parts(name));
            && (Answer(Exec(reqs), name).Ok? <==> m.Some?)
            && (m.Some? ==> m.value != [] && m.value in RulesOf(reqs))
            && (m.Some? ==> Answer(Exec(reqs), name).value.name == m.value[0])
            && (m.Some? ==> Answer(Exec(reqs), name).value.categories == Scan(Some(RulesOf(reqs)[m.value])))
  {
    var t, w, q := Exec(reqs), RulesOf(reqs), Parts(name);
    RunRepresents(reqs);
    TargetIsMatch(t, w, q);
    TargetStored(t, q);
    MatchInRules(w, q);
    if Match(w, q).Some? {
      assert View(t, Match(w, q).value) == Expected(w, Match(w, q).value);
    }
  }

  lemma {:induction false} BestInRules(w: Rules, s: Path)
    ensures Best(w, s).Some? ==> Best(w, s).value in w
  {
    if s != [] { BestInRules(w, s[1..]); }
  }

  lemma MatchInRules(w: Rules, q: Path)
    requires q != []
    ensures Match(w, q).Some? ==> Match(w, q).value in w
  {
    BestInRules(w, q[1..]);
  }

  // ---- order does not matter ------------------------------------------------------------------

  /** Every request is accepted when it comes, and none has blank text. */
  predicate AllAccepted(reqs: seq<Request>) {
    forall i :: 0 <= i < |reqs| ==> AcceptedAt(reqs, i)
  }

  predicate AcceptedAt(reqs: seq<Request>, i: nat)
    requires i < |reqs|
  {
    reqs[i].domain != "" && reqs[i].cats != [""] && Accepts(RulesOf(reqs[..i]), Parts(reqs[i].domain), reqs[i].cats)
  }

  lemma AcceptedPrefix(reqs: seq<Request>, n: nat)
    requires AllAccepted(reqs) && n <= |reqs|
    ensures AllAccepted(reqs[..n])
  {
    forall i | 0 <= i < n ensures AcceptedAt(reqs[..n], i) {
      assert AcceptedAt(reqs, i) && reqs[..n][..i] == reqs[..i];
    }
  }

  ghost predicate Requested(reqs: seq<Request>, d: Path, text: string) {
    exists r :: r in reqs && r.domain != "" && Parts(r.domain) == d && Join(r.cats, ',') == text
  }

  lemma {:induction false} RulesAreRequests(reqs: seq<Request>, d: Path, text: string)
    requires AllAccepted(reqs)
    ensures (d in RulesOf(reqs) && RulesOf(reqs)[d] == text) <==> Requested(reqs, d, text)
    ensures d in RulesOf(reqs) ==> RulesOf(reqs)[d] != ""
  {
    if reqs != [] {
      var n := |reqs| - 1;
      var before, r := reqs[..n], reqs[n];
      assert AcceptedAt(reqs, n);
      AcceptedPrefix(reqs, n);
      RulesAreRequests(before, d, text);
      JoinEmptyIff(r.cats, ',');
      assert reqs == before + [r];
    }
  }

  /** A request that some rule set accepts. */
  predicate Good(r: Request) {
    r.domain != "" && r.cats != [""] && r.cats != [] && WellFormed(Parts(r.domain))
  }

  predicate IsFor(r: Request, d: Path) {
    r.domain != "" && Parts(r.domain) == d
  }

  predicate Clash(r: Request, s: Request) {
    r.domain != "" && IsFor(s, Parts(r.domain))
  }

  /** No two requests are for one domain. */
  ghost predicate OnePerDomain(reqs: seq<Request>) {
    forall i, j :: 0 <= i < j < |reqs| ==> !Clash(reqs[i], reqs[j])
  }

  lemma RuleWasRequested(reqs: seq<Request>, d: Path) returns (i: nat)
    requires AllAccepted(reqs) && d in RulesOf(reqs)
    ensures i < |reqs| && IsFor(reqs[i], d) && RulesOf(reqs)[d] != ""
  {
    RulesAreRequests(reqs, d, RulesOf(reqs)[d]);
    var r :| r in reqs && r.domain != "" && Parts(r.domain) == d && Join(r.cats, ',') == RulesOf(reqs)[d];
    i :| 0 <= i < |reqs| && reqs[i] == r;
  }

  lemma RequestIsRule(reqs: seq<Request>, i: nat)
    requires AllAccepted(reqs) && i < |reqs| && reqs[i].domain != ""
    ensures Parts(reqs[i].domain) in RulesOf(reqs)
  {
    var d, text := Parts(reqs[i].domain), Join(reqs[i].cats, ',');
    assert Requested(reqs, d, text) by { assert reqs[i] in reqs; }
    RulesAreRequests(reqs, d, text);
  }

  lemma LastAcceptedIff(before: seq<Request>, r: Request)
    requires AllAccepted(before)
    ensures AcceptedAt(before + [r], |before|) <==>
            Good(r) && forall i :: 0 <= i < |before| ==> !Clash(before[i], r)
  {
    assert (before + [r])[..|before|] == before;
    if Good(r) {
      var d := Parts(r.domain);
      if d in RulesOf(before) {
        var i := RuleWasRequested(before, d);
        assert Clash(before[i], r);
      }
      forall i | 0 <= i < |before| && Clash(before[i], r) ensures d in RulesOf(before) && RulesOf(before)[d] != "" {
        RequestIsRule(before, i);
        var _ := RuleWasRequested(before, d);
      }
    }
  }

  lemma AcceptedSnoc(before: seq<Request>, r: Request)
    ensures AllAccepted(before + [r]) <==> AllAccepted(before) && AcceptedAt(before + [r], |before|)
  {
    var all := before + [r];
    if AllAccepted(all) {
      AcceptedPrefix(all, |before|);
      assert all[..|before|] == before;
    }
    forall i | 0 <= i < |before| ensures AcceptedAt(all, i) <==> AcceptedAt(before, i) {
      assert all[..i] == before[..i];
    }
  }

  /** A run is accepted exactly when each request is good by itself and no domain comes twice. */
  lemma {:induction false} AllAcceptedIff(reqs: seq<Request>)
    ensures AllAccepted(reqs) <==> OnePerDomain(reqs) && forall i :: 0 <= i < |reqs| ==> Good(reqs[i])
  {
    if reqs != [] {
      var n := |reqs| - 1;
      var before, r := reqs[..n], reqs[n];
      Snoc(reqs);
      AllAcceptedIff(before);
      AcceptedSnoc(before, r);
      assert forall i :: 0 <= i < n ==> before[i] == reqs[i];
      if AllAccepted(before) { LastAcceptedIff(before, r); }
    }
  }

  lemma CountedTwice<T>(s: seq<T>, i: nat, j: nat)
    requires i < j < |s| && s[i] == s[j]
    ensures multiset(s)[s[i]] >= 2
  {
    assert s == s[..j] + s[j..];
    assert s[..j][i] == s[i] && s[j..][0] == s[i];
  }

  lemma CountedOnce<T>(s: seq<T>, i: nat)
    requires i < |s| && forall j :: 0 <= j < |s| && j != i ==> s[j] != s[i]
    ensures multiset(s)[s[i]] == 1
  {
    assert s == s[..i] + [s[i]] + s[i + 1..];
    assert s[i] !in s[..i] && s[i] !in s[i + 1..];
  }

  lemma ReorderedApart(a: seq<Request>, b: seq<Request>, i: nat, j: nat)
    requires multiset(a) == multiset(b) && OnePerDomain(a) && i < j < |b|
    ensures !Clash(b[i], b[j])
  {
    assert b[i] in multiset(a) && b[j] in multiset(a);
    var k :| 0 <= k < |a| && a[k] == b[i];
    var l :| 0 <= l < |a| && a[l] == b[j];
    if b[i] == b[j] && Clash(b[i], b[j]) {
      CountedTwice(b, i, j);
      CountedOnce(a, k);
    }
  }

  /** Any reordering of an accepted run is accepted, and leaves the same rules and the same answers. */
  lemma OrderIrrelevant(a: seq<Request>, b: seq<Request>, q: Path)
    requires AllAccepted(a) && multiset(a) == multiset(b) && q != []
    ensures AllAccepted(b) && RulesOf(a) == RulesOf(b) && Target(Exec(a), q) == Target(Exec(b), q)
  {
    AllAcceptedIff(a);
    forall i, j | 0 <= i < j < |b| ensures !Clash(b[i], b[j]) {
      ReorderedApart(a, b, i, j);
    }
    forall i | 0 <= i < |b| ensures Good(b[i]) { assert b[i] in multiset(a); }
    AllAcceptedIff(b);
    forall r ensures r in a <==> r in b { assert r in multiset(a) <==> r in multiset(b); }
    SameRequests(a, b, q);
  }

  /** The same accepted requests leave the same rules, so the same answer to every lookup. */
  lemma SameRequests(a: seq<Request>, b: seq<Request>, q: Path)
    requires AllAccepted(a) && AllAccepted(b) && q != []
    requires forall r :: r in a <==> r in b
    ensures RulesOf(a) == RulesOf(b) && Target(Exec(a), q) == Target(Exec(b), q)
  {
    var x, y := RulesOf(a), RulesOf(b);
    forall d | d in x ensures d in y && y[d] == x[d] {
      RulesAreRequests(a, d, x[d]);
      RulesAreRequests(b, d, x[d]);
    }
    forall d | d in y ensures d in x {
      RulesAreRequests(a, d, y[d]);
      RulesAreRequests(b, d, y[d]);
    }
    assert x == y;
    RunRepresents(a);
    RunRepresents(b);
    TargetIsMatch(Exec(a), x, q);
    TargetIsMatch(Exec(b), y, q);
  }

  // ---- trailing dot -------------------------------------------------------------------------

  lemma TrailingDot(t: Table, name: string)
    requires |name| >= 2 && name[|name| - 1] != '.'
    ensures Answer(t, name + ".") == Answer(t, name)
  {
    assert Normalize(name + ".") == name == Normalize(name);
  }

  // ---- what writes and failed lookups answer ----------------------------------------------------

  /** After any writes, a write is answered by its own form and by the rule that is there. */
  lemma WriteAnswers(reqs: seq<Request>, domain: string, cats: seq<string>)
    requires domain != ""
    ensures var p, w := Parts(domain), RulesOf(reqs);
            Verdict(Exec(reqs), p, cats) ==
            if |p| < 2 || (exists i :: 1 <= i < |p| && p[i] == "*") then Err(BadPattern)
            else if cats == [] then Err(NoCategories)
            else if p in w && w[p] != "" then Err(Exists)
            else Ok(())
  {
    RunRepresents(reqs);
    assert View(Exec(reqs), Parts(domain)) == Expected(RulesOf(reqs), Parts(domain));
  }

  /** After any writes, a lookup that fails says why: the name is too short, it is stored but carries no rule, or
      nothing is known about it. */
  lemma FailedLookups(reqs: seq<Request>, name: string)
    requires name != ""
    ensures var q, w := Parts(name), RulesOf(reqs);
            && (|name| < 2 || |q| < 2 ==> Answer(Exec(reqs), name) == Err(TooShort))
            && (|name| >= 2 && |q| >= 2 && Match(w, q).None? ==>
                  Answer(Exec(reqs), name) == Err(if Stored(w, q) then NoMatch else NoRows))
  {
    RunRepresents(reqs);
    var t, w, q := Exec(reqs), RulesOf(reqs), Parts(name);
    if |name| >= 2 && |q| >= 2 {
      TargetIsMatch(t, w, q);
      assert View(t, q) == Expected(w, q);
      if q in w { OwnSuffix(w, q); }
    }
  }

  /** The labels of a name are its pieces between dots, one trailing dot aside. */
  lemma PartsJoin(name: string)
    requires name != ""
    ensures Join(Parts(name), '.') == if name[|name| - 1] == '.' then name[..|name| - 1] else name
    ensures forall x <- Parts(name) :: !Has(x, '.')
  {
    JoinSplit(Normalize(name), '.');
    SplitJoinIff(Parts(name), '.');
  }
}
