/** The order of file names, as `sort.Strings` and `filepath.Walk` use it. */
module Names {
  predicate Less(a: string, b: string) {
    if b == "" then false
    else if a == "" then true
    else a[0] < b[0] || (a[0] == b[0] && Less(a[1..], b[1..]))
  }

  lemma {:induction false} LessIrreflexive(a: string)
    ensures !Less(a, a)
  {
    if a != "" { LessIrreflexive(a[1..]); }
  }

  lemma {:induction false} LessTotal(a: string, b: string)
    ensures Less(a, b) || a == b || Less(b, a)
  {
    if a != "" && b != "" && a[0] == b[0] {
      LessTotal(a[1..], b[1..]);
      if a[1..] == b[1..] {
        assert a == [a[0]] + a[1..];
      }
    }
  }

  lemma {:induction false} LessTransitive(a: string, b: string, c: string)
    requires Less(a, b) && Less(b, c)
    ensures Less(a, c)
  {
    if a != "" && a[0] == b[0] && b[0] == c[0] {
      LessTransitive(a[1..], b[1..], c[1..]);
    }
  }

  lemma LessAsymmetric(a: string, b: string)
    requires Less(a, b)
    ensures a != b && !Less(b, a)
  {
    LessIrreflexive(a);
    if Less(b, a) { LessTransitive(a, b, a); }
  }

  /** a comes before b when it has the smaller character at the first place where they differ, or is the shorter
      one when they do not. */
  lemma {:induction false} LessMeans(a: string, b: string)
    ensures Less(a, b) <==>
      exists k :: 0 <= k <= |a| && k < |b| && a[..k] == b[..k] && (k == |a| || a[k] < b[k])
  {
    if a == "" {
      assert b != "" ==> a[..0] == b[..0];
    } else if b != "" {
      LessMeans(a[1..], b[1..]);
      if a[0] < b[0] {
        assert a[..0] == b[..0];
      }
      if k :| 0 <= k <= |a| && k < |b| && a[..k] == b[..k] && (k == |a| || a[k] < b[k]) {
        if k > 0 {
          assert a[0] == a[..k][0] == b[..k][0] == b[0];
          assert a[1..][..k - 1] == a[..k][1..] == b[..k][1..] == b[1..][..k - 1];
        }
      }
      if j :| 0 <= j <= |a| - 1 && j < |b| - 1 && a[1..][..j] == b[1..][..j] &&
              (j == |a| - 1 || a[1..][j] < b[1..][j]) {
        if a[0] == b[0] {
          assert a[..j + 1] == [a[0]] + a[1..][..j] == b[..j + 1];
        }
      }
    }
  }

  /** Texts whose first parts have one length compare by these parts, and then by the rest. */
  lemma {:induction false} LessConcat(p: string, q: string, r: string, s: string)
    requires |p| == |r|
    ensures Less(p + q, r + s) <==> Less(p, r) || (p == r && Less(q, s))
    ensures p + q == r + s <==> p == r && q == s
  {
    if p + q == r + s {
      assert p == (p + q)[..|p|] && r == (r + s)[..|p|];
      assert q == (p + q)[|p|..] && s == (r + s)[|p|..];
    }
    if p == "" {
      assert p + q == q && r + s == s;
    } else {
      assert (p + q)[1..] == p[1..] + q && (r + s)[1..] == r[1..] + s;
      LessConcat(p[1..], q, r[1..], s);
      if p[0] == r[0] && p[1..] == r[1..] {
        assert p == [p[0]] + p[1..] == r;
      }
    }
  }

  ghost predicate Ascending(names: seq<string>) {
    forall i, j :: 0 <= i < j < |names| ==> Less(names[i], names[j])
  }

  lemma LastIsNew(names: seq<string>, before: seq<string>, x: string)
    requires Ascending(names) && names == before + [x]
    ensures Ascending(before) && x !in before
    ensures forall y :: y in before ==> Less(y, x)
    ensures forall y :: y in names <==> y in before || y == x
  {
    hide Less;
    LessIrreflexive(x);
    assert forall i :: 0 <= i < |before| ==> before[i] == names[i];
    assert names[|before|] == x;
  }

  ghost predicate IsLeast(x: string, names: set<string>) {
    x in names && forall y :: y in names && y != x ==> Less(x, y)
  }

  lemma {:induction false} LeastExists(names: set<string>)
    requires names != {}
    ensures exists x :: IsLeast(x, names)
  {
    hide Less;
    var x :| x in names;
    if names == {x} {
      assert IsLeast(x, names);
    } else {
      LeastExists(names - {x});
      var y :| IsLeast(y, names - {x});
      LessTotal(x, y);
      if Less(y, x) {
        assert IsLeast(y, names);
      } else {
        forall z | z in names && z != x
          ensures Less(x, z)
        {
          if z != y { LessTransitive(x, y, z); }
        }
        assert IsLeast(x, names);
      }
    }
  }

  /** The names of a set in ascending order. */
  ghost function InOrder(names: set<string>): (r: seq<string>)
    ensures Ascending(r)
    ensures forall x :: x in r <==> x in names
  {
    if names == {} then []
    else
      LeastExists(names);
      var x :| IsLeast(x, names);
      [x] + InOrder(names - {x})
  }

  /** A set of names has only one ascending order. */
  lemma {:induction false} OrderUnique(r: seq<string>, s: seq<string>)
    requires Ascending(r) && Ascending(s) && forall x :: x in r <==> x in s
    ensures r == s
  {
    hide Less;
    if s != [] { assert s[0] in r; }
    if r != [] {
      assert r[0] in s;
      if r[0] != s[0] {
        LessAsymmetric(r[0], s[0]);
      }
      forall x
        ensures x in r[1..] <==> x in s[1..]
      {
        LessIrreflexive(r[0]);
        assert x in r <==> x in s;
        assert r == [r[0]] + r[1..] && s == [s[0]] + s[1..];
      }
      OrderUnique(r[1..], s[1..]);
      assert r == [r[0]] + r[1..] && s == [s[0]] + s[1..];
    }
  }

  lemma InOrderIs(names: set<string>, r: seq<string>)
    requires Ascending(r) && forall x :: x in r <==> x in names
    ensures InOrder(names) == r
  {
    OrderUnique(InOrder(names), r);
  }

  lemma InOrderAppend(names: set<string>, x: string)
    requires forall y :: y in names ==> Less(y, x)
    ensures InOrder(names + {x}) == InOrder(names) + [x]
  {
    InOrderIs(names + {x}, InOrder(names) + [x]);
  }

  /** `os.ReadDir` order, or `sort.Strings` on distinct names. */
  method Sort(names: set<string>) returns (r: seq<string>)
    ensures r == InOrder(names)
  {
    hide Less;
    r := [];
    var rest := names;
    while rest != {}
      invariant Ascending(r) && rest <= names
      invariant forall x :: x in r <==> x in names - rest
      invariant forall x, y :: x in r && y in rest ==> Less(x, y)
      decreases |rest|
    {
      var x := LeastOf(rest);
      r := r + [x];
      rest := rest - {x};
    }
    InOrderIs(names, r);
  }

  method LeastOf(names: set<string>) returns (x: string)
    requires names != {}
    ensures IsLeast(x, names)
  {
    hide Less;
    x :| x in names;
    var todo := names - {x};
    while todo != {}
      invariant x in names && todo <= names - {x}
      invariant forall y :: y in names - todo && y != x ==> Less(x, y)
      decreases |todo|
    {
      var y :| y in todo;
      LessTotal(x, y);
      if Less(y, x) {
        forall z | z in names - todo && z != x
          ensures Less(y, z)
        {
          LessTransitive(y, x, z);
        }
        x := y;
      }
      todo := todo - {y};
    }
  }
}
