/** What publish keeps beside a new production tree: the snapshot of the old one, the newest snapshots
    before it, and the newest repository packages (internal/pipeline/stage_publish.go). */
module Snapshots {
  import opened Wrappers
  import opened Names
  import opened FileTree

  const ROLLBACK := ".rollback"
  const REPO_RPM := "repo-rpm"

  // ---- copying ----

  /** `copyDir`: the walk as a loop over the entries of each directory. */
  method CopyTree(read: Reader, at: Path, src: Node, dst: Option<Node>) returns (r: Copied)
    ensures r == Copy(read, at, src, dst)
    decreases src
  {
    match src
    case File(data) => r := WriteFile(data, dst);
    case Link(_) =>
      var data := read(at);
      r := if data.Some? then WriteFile(data.value, dst) else Copied(dst, false);
    case Dir(es) =>
      r := CopyTop(read, at, src, dst, {});
      assert es - {} == es;
  }

  /** The loop over one directory, passing over the excluded names. */
  method CopyTop(read: Reader, at: Path, src: Node, dst: Option<Node>, exclude: set<string>) returns (r: Copied)
    requires src.Dir?
    ensures r == Copy(read, at, Dir(src.entries - exclude), dst)
    decreases src, 0
  {
    hide Less, Copy, CopyNamed, Ascending, Visited, Lookup, Updated;
    ghost var walked := Dir(src.entries - exclude);
    CopyOfDirectory(read, at, walked, dst);
    if dst.Some? && !dst.value.Dir? { return Copied(dst, false); }
    var start: Entries := if dst.None? then map[] else dst.value.entries;
    var done, ok := start, true;
    var names := Sort(src.entries.Keys);
    ghost var visited: seq<string> := [];
    NoNames(read, at, walked, start);
    NoneVisited(names, exclude);
    for i := 0 to |names|
      invariant Visited(names, i, exclude, visited)
      invariant forall x :: x in visited ==> x in walked.entries
      invariant CopiedEntries(done, ok) == CopyNamed(read, at, walked, visited, start)
    {
      var x := names[i];
      VisitedGrows(names, i, exclude, visited);
      if x !in exclude {
        NamedGrows(read, at, walked, visited, x, start);
        if ok {
          var c := CopyTree(read, at + [x], src.entries[x], Lookup(done, x));
          done, ok := Updated(done, x, c.node), c.ok;
        }
        visited := visited + [x];
      }
    }
    AllVisited(src.entries, names, exclude, visited);
    return Copied(Some(Dir(done)), ok);
  }

  lemma CopyOfDirectory(read: Reader, at: Path, src: Node, dst: Option<Node>)
    requires src.Dir?
    ensures Copy(read, at, src, dst) ==
      if dst.Some? && !dst.value.Dir? then Copied(dst, false)
      else
        var r := CopyNamed(read, at, src, InOrder(src.entries.Keys), if dst.None? then map[] else dst.value.entries);
        Copied(Some(Dir(r.entries)), r.ok)
  {
  }

  lemma NoNames(read: Reader, at: Path, src: Node, dst: Entries)
    requires src.Dir?
    ensures CopyNamed(read, at, src, [], dst) == CopiedEntries(dst, true)
  {
  }

  lemma NamedGrows(read: Reader, at: Path, src: Node, names: seq<string>, x: string, dst: Entries)
    requires src.Dir? && x in src.entries && forall y :: y in names ==> y in src.entries
    ensures var before := CopyNamed(read, at, src, names, dst);
      var c := Copy(read, at + [x], src.entries[x], Lookup(before.entries, x));
      CopyNamed(read, at, src, names + [x], dst) ==
        if before.ok then CopiedEntries(Updated(before.entries, x, c.node), c.ok) else before
  {
    hide Copy;
    assert (names + [x])[..|names|] == names;
  }

  /** The names among the first i that are not excluded, in order. */
  ghost predicate Visited(names: seq<string>, i: nat, exclude: set<string>, visited: seq<string>)
    requires i <= |names|
  {
    Ascending(visited) && forall x :: x in visited <==> x in names[..i] && x !in exclude
  }

  lemma NoneVisited(names: seq<string>, exclude: set<string>)
    ensures Visited(names, 0, exclude, [])
  {
  }

  lemma VisitedGrows(names: seq<string>, i: nat, exclude: set<string>, visited: seq<string>)
    requires Ascending(names) && i < |names| && Visited(names, i, exclude, visited)
    ensures Visited(names, i + 1, exclude, if names[i] in exclude then visited else visited + [names[i]])
    ensures names[i] in names
  {
    hide Less;
    assert names[..i + 1] == names[..i] + [names[i]];
    forall y | y in visited
      ensures Less(y, names[i])
    {
      assert y in names[..i];
    }
  }

  lemma AllVisited(es: Entries, names: seq<string>, exclude: set<string>, visited: seq<string>)
    requires names == InOrder(es.Keys) && Visited(names, |names|, exclude, visited)
    ensures visited == InOrder((es - exclude).Keys)
  {
    assert names[..|names|] == names;
    InOrderIs((es - exclude).Keys, visited);
  }

  // ---- pruning old snapshots ----

  function DirNames(es: Entries): set<string> {
    set x | x in es && es[x].Dir?
  }

  /** The snapshots whose names come after x: the newer ones. */
  function Newer(es: Entries, x: string): set<string> {
    Later(DirNames(es), x)
  }

  /** The names of a set that come after x. */
  function Later(names: set<string>, x: string): set<string> {
    set y | y in names && Less(x, y)
  }

  /** Keeps a snapshot when fewer than `keep` are newer; other entries stay. */
  function Pruned(es: Entries, keep: nat): Entries {
    map x | x in es && (es[x].Dir? ==> |Newer(es, x)| < keep) :: es[x]
  }

  lemma LaterCount(s: set<string>, i: nat)
    requires i < |InOrder(s)|
    ensures |Later(s, InOrder(s)[i])| == |InOrder(s)| - 1 - i
  {
    hide Less;
    var names := InOrder(s);
    forall y
      ensures y in Later(s, names[i]) <==> y in names[i + 1..]
    {
      if y in names {
        var j :| 0 <= j < |names| && names[j] == y;
        if j < i {
          LessAsymmetric(names[j], names[i]);
        } else if j == i {
          LessIrreflexive(y);
        } else {
          assert names[i + 1..][j - i - 1] == y;
        }
        if y in names[i + 1..] {
          var k :| 0 <= k < |names| - i - 1 && names[i + 1..][k] == y;
          assert names[i + 1 + k] == y;
        }
      }
    }
    AscendingSize(names[i + 1..], Later(s, names[i]));
  }

  lemma {:induction false} AscendingSize(names: seq<string>, s: set<string>)
    requires Ascending(names) && forall x :: x in s <==> x in names
    ensures |s| == |names|
  {
    hide Less;
    if names == [] {
      assert s == {};
    } else {
      var n := |names| - 1;
      assert names == names[..n] + [names[n]];
      LastIsNew(names, names[..n], names[n]);
      AscendingSize(names[..n], s - {names[n]});
    }
  }

  function Min(a: nat, b: nat): nat { if a < b then a else b }

  /** Exactly the newest min(keep, n) snapshots are left. */
  lemma PrunedKeepsNewest(es: Entries, keep: nat)
    ensures |DirNames(Pruned(es, keep))| == Min(keep, |DirNames(es)|)
    ensures forall x, y :: x in DirNames(Pruned(es, keep)) && y in DirNames(es) && Less(x, y) ==>
      y in Pruned(es, keep)
  {
    hide Less, Newer;
    var names := InOrder(DirNames(es));
    AscendingSize(names, DirNames(es));
    var gone := if |names| <= keep then 0 else |names| - keep;
    forall x
      ensures x in DirNames(Pruned(es, keep)) <==> x in names[gone..]
    {
      if x in DirNames(es) {
        KeptByPlace(es, keep, x);
      }
    }
    AscendingSize(names[gone..], DirNames(Pruned(es, keep)));
    forall x, y | x in DirNames(Pruned(es, keep)) && y in DirNames(es) && Less(x, y)
      ensures y in Pruned(es, keep)
    {
      NewerShrinks(es, x, y);
    }
  }

  lemma NewerShrinks(es: Entries, x: string, y: string)
    requires Less(x, y)
    ensures |Newer(es, y)| <= |Newer(es, x)|
  {
    hide Less, DirNames;
    forall z | z in Newer(es, y)
      ensures z in Newer(es, x)
    {
      LessTransitive(x, y, z);
    }
    SubsetSize(Newer(es, y), Newer(es, x));
  }

  lemma {:induction false} SubsetSize(s: set<string>, t: set<string>)
    requires s <= t
    ensures |s| <= |t|
  {
    if s != {} {
      var x :| x in s;
      SubsetSize(s - {x}, t - {x});
    }
  }

  /** A snapshot is kept when it is among the last `keep` names of the sorted list. */
  lemma KeptByPlace(es: Entries, keep: nat, x: string)
    requires x in DirNames(es)
    ensures var names := InOrder(DirNames(es));
      x in Pruned(es, keep) <==> x in names[if |names| <= keep then 0 else |names| - keep..]
  {
    hide Less, Later;
    FewLater(DirNames(es), keep, x);
  }

  /** The last n names of a set are those with fewer than n names after them. */
  lemma FewLater(s: set<string>, n: nat, x: string)
    requires x in s
    ensures var names := InOrder(s);
      |Later(s, x)| < n <==> x in names[if |names| <= n then 0 else |names| - n..]
  {
    hide Less, Later, Ascending, InOrder;
    var names := InOrder(s);
    var gone := if |names| <= n then 0 else |names| - n;
    assert x in names;
    var i :| 0 <= i < |names| && names[i] == x;
    LaterCount(s, i);
    if x in names[gone..] {
      var k :| 0 <= k < |names| - gone && names[gone..][k] == x;
      assert names[gone + k] == x;
      LaterCount(s, gone + k);
    }
    if gone <= i {
      assert names[gone..][i - gone] == x;
    }
  }

  // ---- pruning old repository packages ----

  predicate IsRpm(name: string) {
    |name| >= 4 && name[|name| - 4..] == ".rpm"
  }

  /** `filepath.Ext` of a file name: what is from its last dot on. */
  function Ext(name: string): string {
    if name == "" then ""
    else if name[|name| - 1] == '.' then "."
    else
      var before := Ext(name[..|name| - 1]);
      if before == "" then "" else before + [name[|name| - 1]]
  }

  lemma {:induction false} ExtIsSuffix(name: string)
    ensures var e := Ext(name);
      |e| <= |name| && name[|name| - |e|..] == e && FromLastDot(e) && (e == "" ==> '.' !in name)
  {
    if name != "" && name[|name| - 1] != '.' {
      var n := |name| - 1;
      ExtIsSuffix(name[..n]);
      assert name == name[..n] + [name[n]];
      OneMoreChar(name[..n], Ext(name[..n]), name[n]);
    }
  }

  /** A dot and no other one, or nothing. */
  predicate FromLastDot(e: string) {
    e == "" || (e[0] == '.' && forall i :: 0 < i < |e| ==> e[i] != '.')
  }

  lemma OneMoreChar(name: string, e: string, c: char)
    requires |e| <= |name| && name[|name| - |e|..] == e && FromLastDot(e) && c != '.'
    ensures (name + [c])[|name| - |e|..] == e + [c] && (e != "" ==> FromLastDot(e + [c]))
  {
  }

  /** The packages are the files whose extension is `.rpm`. */
  lemma RpmByExt(name: string)
    ensures IsRpm(name) <==> Ext(name) == ".rpm"
  {
    ExtIsSuffix(name);
    if IsRpm(name) {
      LastDot(name, Ext(name), ".rpm");
    }
  }

  /** Two ends of a text that both begin at its last dot are the same. */
  lemma LastDot(name: string, e: string, f: string)
    requires |e| <= |name| && name[|name| - |e|..] == e && FromLastDot(e) && (e == "" ==> '.' !in name)
    requires 0 < |f| <= |name| && name[|name| - |f|..] == f && FromLastDot(f)
    ensures e == f
  {
    var n := |name|;
    assert forall i :: n - |f| <= i < n ==> name[i] == f[i - (n - |f|)];
    assert forall i :: n - |e| <= i < n ==> name[i] == e[i - (n - |e|)];
    assert name[n - |f|] in name;
    assert |e| > 0 && name[n - |e|] == '.' && name[n - |f|] == '.';
  }

  function Rpms(es: Entries): set<string> {
    set x | x in es && !es[x].Dir? && IsRpm(x)
  }

  /** The names of a set from the oldest to the newest file, as sort.Slice leaves them. */
  type ByAge = set<string> -> seq<string>

  ghost predicate Lists(oldestFirst: ByAge) {
    forall s :: |oldestFirst(s)| == |s| && forall x :: x in oldestFirst(s) <==> x in s
  }

  function Elements(names: seq<string>): set<string> { set x | x in names }

  function FirstOf(names: seq<string>, n: nat): seq<string> {
    names[..Min(n, |names|)]
  }

  function CleanedRpms(es: Entries, oldestFirst: ByAge): Entries {
    var rpms := Rpms(es);
    if |rpms| <= 3 then es else es - Elements(FirstOf(oldestFirst(rpms), |rpms| - 3))
  }

  /** The three newest packages stay, every other package goes, and nothing else changes. */
  lemma CleanKeepsNewest(es: Entries, oldestFirst: ByAge, modTime: string -> int)
    requires Lists(oldestFirst)
    requires forall i, j :: 0 <= i < j < |oldestFirst(Rpms(es))| ==>
      modTime(oldestFirst(Rpms(es))[i]) <= modTime(oldestFirst(Rpms(es))[j])
    ensures var kept := CleanedRpms(es, oldestFirst);
      && |Rpms(kept)| == Min(3, |Rpms(es)|)
      && (forall x :: x in es && x !in Rpms(es) ==> x in kept)
      && (forall x :: x in kept ==> x in es && kept[x] == es[x])
      && (forall x, y :: x in Rpms(es) && x !in kept && y in Rpms(kept) ==> modTime(x) <= modTime(y))
  {
    var rpms, order := Rpms(es), oldestFirst(Rpms(es));
    if |rpms| > 3 {
      var n := |rpms| - 3;
      var gone := Elements(order[..n]);
      assert gone <= rpms by {
        forall x | x in gone ensures x in rpms { assert x in order; }
      }
      NoRepeats(order, rpms);
      DistinctSize(order[..n], gone);
      assert Rpms(CleanedRpms(es, oldestFirst)) == rpms - gone;
      forall j | 0 <= j < n
        ensures order[j] in gone
      {
        assert order[..n][j] == order[j];
      }
      forall x, y | x in gone && y in rpms - gone
        ensures modTime(x) <= modTime(y)
      {
        var i :| 0 <= i < n && order[i] == x;
        var j :| 0 <= j < |order| && order[j] == y;
      }
    }
  }

  /** Whatever the ages, min(3, n) packages stay. */
  lemma CleanKeepsCount(es: Entries, oldestFirst: ByAge)
    requires Lists(oldestFirst)
    ensures |Rpms(CleanedRpms(es, oldestFirst))| == Min(3, |Rpms(es)|)
  {
    CleanKeepsNewest(es, oldestFirst, _ => 0);
  }

  ghost predicate Distinct(names: seq<string>) {
    forall i, j :: 0 <= i < j < |names| ==> names[i] != names[j]
  }

  lemma {:induction false} DistinctSize(names: seq<string>, s: set<string>)
    requires Distinct(names) && forall x :: x in s <==> x in names
    ensures |s| == |names|
  {
    if names == [] {
      assert s == {};
    } else {
      var n := |names| - 1;
      assert names == names[..n] + [names[n]];
      DistinctSize(names[..n], s - {names[n]});
    }
  }

  lemma {:induction false} SizeAtMost(names: seq<string>, s: set<string>)
    requires forall x :: x in s <==> x in names
    ensures |s| <= |names|
  {
    if names == [] {
      assert s == {};
    } else {
      var n := |names| - 1;
      assert names == names[..n] + [names[n]];
      var t := set x | x in names[..n];
      SizeAtMost(names[..n], t);
      SubsetSize(s, t + {names[n]});
    }
  }

  lemma NoRepeats(names: seq<string>, s: set<string>)
    requires |names| == |s| && forall x :: x in s <==> x in names
    ensures Distinct(names)
  {
    forall i, j | 0 <= i < j < |names|
      ensures names[i] != names[j]
    {
      if names[i] == names[j] {
        var rest := names[..j] + names[j + 1..];
        assert rest[i] == names[j];
        assert names == names[..j] + [names[j]] + names[j + 1..];
        SizeAtMost(rest, s);
        assert false;
      }
    }
  }

  /** When the files were written one after another in the order of their names, the packages that stay are
      the last three by name. */
  lemma NewestIsLastByName(es: Entries, oldestFirst: ByAge, modTime: string -> int)
    requires Lists(oldestFirst)
    requires forall i, j :: 0 <= i < j < |oldestFirst(Rpms(es))| ==>
      modTime(oldestFirst(Rpms(es))[i]) <= modTime(oldestFirst(Rpms(es))[j])
    requires forall x, y :: x in es && y in es && Less(x, y) ==> modTime(x) < modTime(y)
    ensures forall x :: x in Rpms(es) ==> (x in CleanedRpms(es, oldestFirst) <==> |Later(Rpms(es), x)| < 3)
  {
    hide Less, Later, IsRpm;
    var rpms := Rpms(es);
    var order := oldestFirst(rpms);
    NoRepeats(order, rpms);
    forall i, j | 0 <= i < j < |order|
      ensures Less(order[i], order[j])
    {
      assert order[i] in order && order[j] in order;
      LessTotal(order[i], order[j]);
    }
    InOrderIs(rpms, order);
    forall x | x in rpms
      ensures x in CleanedRpms(es, oldestFirst) <==> |Later(rpms, x)| < 3
    {
      FewLater(rpms, 3, x);
      var gone := if |order| <= 3 then 0 else |order| - 3;
      OneSide(order, gone, x);
    }
  }

  lemma OneSide(names: seq<string>, k: nat, x: string)
    requires Ascending(names) && k <= |names| && x in names
    ensures x in names[..k] <==> x !in names[k..]
  {
    hide Less;
    if x in names[..k] && x in names[k..] {
      var i :| 0 <= i < k && names[..k][i] == x;
      var j :| 0 <= j < |names| - k && names[k..][j] == x;
      assert names[k + j] == x && names[i] == x;
      LessIrreflexive(x);
    }
    assert names == names[..k] + names[k..];
  }
}
