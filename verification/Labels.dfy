/** Text cut at a separator and put together again. */
module Labels {

  predicate Has(s: string, c: char) {
    exists i :: 0 <= i < |s| && s[i] == c
  }

  /** The pieces between the separators; there is always at least one. */
  function Split(s: string, c: char): (r: seq<string>)
    ensures |r| >= 1
  {
    if s == "" then [""]
    else
      var rest := Split(s[1..], c);
      if s[0] == c then [""] + rest else [[s[0]] + rest[0]] + rest[1..]
  }

  function Join(p: seq<string>, c: char): string {
    if p == [] then "" else if |p| == 1 then p[0] else p[0] + [c] + Join(p[1..], c)
  }

  lemma {:induction false} JoinSplit(s: string, c: char)
    ensures Join(Split(s, c), c) == s
  {
    if s != "" {
      var rest := Split(s[1..], c);
      JoinSplit(s[1..], c);
      if s[0] == c {
        assert ([""] + rest)[1..] == rest;
      } else {
        var r := [[s[0]] + rest[0]] + rest[1..];
        assert r[1..] == rest[1..];
      }
    }
  }

  lemma {:induction false} PiecesLackSeparator(s: string, c: char)
    ensures forall p <- Split(s, c) :: !Has(p, c)
  {
    if s != "" {
      var rest := Split(s[1..], c);
      PiecesLackSeparator(s[1..], c);
      assert !Has(rest[0], c) && forall p <- rest[1..] :: p in rest;
    }
  }

  lemma {:induction false} SplitPlain(s: string, c: char)
    requires !Has(s, c)
    ensures Split(s, c) == [s]
  {
    if s != "" {
      assert s[0] != c;
      assert forall i :: 0 <= i < |s| - 1 ==> s[1..][i] == s[i + 1];
      SplitPlain(s[1..], c);
      assert [s[0]] + s[1..] == s;
    }
  }

  lemma {:induction false} SplitAt(a: string, b: string, c: char)
    requires !Has(a, c)
    ensures Split(a + [c] + b, c) == [a] + Split(b, c)
  {
    var s := a + [c] + b;
    if a == "" {
      assert s[1..] == b;
    } else {
      assert a[0] != c && s[0] == a[0];
      assert forall i :: 0 <= i < |a| - 1 ==> a[1..][i] == a[i + 1];
      SplitAt(a[1..], b, c);
      assert [a[0]] + a[1..] == a;
      assert s[1..] == a[1..] + [c] + b;
    }
  }

  lemma {:induction false} SplitJoin(p: seq<string>, c: char)
    requires p != [] && forall x <- p :: !Has(x, c)
    ensures Split(Join(p, c), c) == p
  {
    assert p[0] in p;
    if |p| == 1 {
      SplitPlain(p[0], c);
    } else {
      SplitJoin(p[1..], c);
      SplitAt(p[0], Join(p[1..], c), c);
    }
  }

  /** Cutting undoes joining exactly when no piece holds the separator. */
  lemma SplitJoinIff(p: seq<string>, c: char)
    ensures Split(Join(p, c), c) == p <==> p != [] && forall x <- p :: !Has(x, c)
  {
    if p != [] && forall x <- p :: !Has(x, c) {
      SplitJoin(p, c);
    } else {
      PiecesLackSeparator(Join(p, c), c);
    }
  }

  lemma JoinEmptyIff(p: seq<string>, c: char)
    ensures Join(p, c) == "" <==> p == [] || p == [""]
  {
    if |p| > 1 { assert Join(p, c)[|p[0]|] == c; }
  }
}
