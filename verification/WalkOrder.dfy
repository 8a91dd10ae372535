/** Which part of a tree a snapshot holds: what the walk reaches before every link that cannot be read. */
module WalkOrder {
  import opened Wrappers
  import opened Names
  import opened FileTree
  import opened FileSystem
  import opened Links

  /** The order of `filepath.Walk`: a directory before what is in it, entries by name. */
  predicate Before(p: Path, q: Path) {
    if q == [] then false
    else if p == [] then true
    else Less(p[0], q[0]) || (p[0] == q[0] && Before(p[1..], q[1..]))
  }

  lemma {:induction false} BeforeIrreflexive(p: Path)
    ensures !Before(p, p)
  {
    hide Less;
    if p != [] {
      LessIrreflexive(p[0]);
      BeforeIrreflexive(p[1..]);
    }
  }

  lemma {:induction false} BeforeAsymmetric(p: Path, q: Path)
    requires Before(p, q)
    ensures !Before(q, p)
  {
    hide Less;
    if p != [] {
      if Less(p[0], q[0]) {
        LessAsymmetric(p[0], q[0]);
      } else {
        LessIrreflexive(p[0]);
        BeforeAsymmetric(p[1..], q[1..]);
      }
    }
  }

  lemma {:induction false} BeforeUnder(at: Path, p: Path, q: Path)
    ensures Before(at + p, at + q) <==> Before(p, q)
  {
    hide Less;
    if at == [] {
      assert at + p == p && at + q == q;
    } else {
      LessIrreflexive(at[0]);
      assert (at + p)[1..] == at[1..] + p && (at + q)[1..] == at[1..] + q;
      BeforeUnder(at[1..], p, q);
    }
  }

  ghost predicate Ordered(items: seq<Item>) {
    forall i, j :: 0 <= i < j < |items| ==> Before(items[i].path, items[j].path)
  }

  ghost predicate Under(items: seq<Item>, at: Path) {
    forall i :: 0 <= i < |items| ==> at <= items[i].path
  }

  /** Items that lie below one of these names in a directory. */
  ghost predicate Among(items: seq<Item>, at: Path, names: seq<string>) {
    forall i :: 0 <= i < |items| ==> exists x :: x in names && at + [x] <= items[i].path
  }

  /** The items of a tree are listed in the order of the walk. */
  lemma {:induction false} ListingOrdered(at: Path, n: Node)
    ensures Ordered(Listing(at, n)) && Under(Listing(at, n), at)
    decreases n
  {
    if n.Dir? {
      hide Less, Before, Among, Ordered;
      var names := InOrder(n.entries.Keys);
      ListingOfOrdered(at, n, names);
      DirectoryFirst(at, ListingOf(at, n, names), names);
    } else {
      OneItem(at, Listing(at, n));
    }
  }

  lemma OneItem(at: Path, items: seq<Item>)
    requires |items| == 1 && items[0].path == at
    ensures Ordered(items) && Under(items, at)
  {
  }

  lemma DirectoryFirst(at: Path, items: seq<Item>, names: seq<string>)
    requires Ordered(items) && Among(items, at, names)
    ensures Ordered([DirItem(at)] + items) && Under([DirItem(at)] + items, at)
  {
    hide Before;
    var all := [DirItem(at)] + items;
    forall j | 0 < j < |all|
      ensures Before(at, all[j].path) && at <= all[j].path
    {
      assert all[j] == items[j - 1];
      var x :| x in names && at + [x] <= items[j - 1].path;
      AboveFirst(at, all[j].path);
    }
  }

  lemma AboveFirst(at: Path, p: Path)
    requires at < p
    ensures Before(at, p)
  {
    BeforeUnder(at, [], p[|at|..]);
    assert at + [] == at && at + p[|at|..] == p;
  }

  lemma {:induction false} ListingOfOrdered(at: Path, n: Node, names: seq<string>)
    requires n.Dir? && Ascending(names) && forall x :: x in names ==> x in n.entries
    ensures Ordered(ListingOf(at, n, names)) && Among(ListingOf(at, n, names), at, names)
    decreases n, |names|
  {
    hide Less, Before, Listing, Among, Ordered, Under;
    if names == [] {
      NoItems(at);
    } else {
      var k := |names| - 1;
      var x := names[k];
      assert names == names[..k] + [x];
      LastIsNew(names, names[..k], x);
      ListingOfOrdered(at, n, names[..k]);
      ListingOrdered(at + [x], n.entries[x]);
      Appended(at, ListingOf(at, n, names[..k]), Listing(at + [x], n.entries[x]), names[..k], x);
    }
  }

  lemma NoItems(at: Path)
    ensures Ordered([]) && Among([], at, [])
  {
  }

  lemma Appended(at: Path, items: seq<Item>, more: seq<Item>, names: seq<string>, x: string)
    requires Ordered(items) && Among(items, at, names) && Ordered(more) && Under(more, at + [x])
    requires forall y :: y in names ==> Less(y, x)
    ensures Ordered(items + more) && Among(items + more, at, names + [x])
  {
    hide Less, Before;
    var all := items + more;
    forall i, j | 0 <= i < |items| <= j < |all|
      ensures Before(all[i].path, all[j].path)
    {
      assert all[i] == items[i] && all[j] == more[j - |items|];
      var y :| y in names && at + [y] <= items[i].path;
      SmallerFirst(at, y, x, all[i].path, all[j].path);
    }
    forall i | 0 <= i < |all|
      ensures exists y :: y in names + [x] && at + [y] <= all[i].path
    {
      if i < |items| {
        var y :| y in names && at + [y] <= items[i].path;
        assert y in names + [x] && at + [y] <= all[i].path;
      } else {
        assert x in names + [x] && at + [x] <= all[i].path;
      }
    }
  }

  lemma SmallerFirst(at: Path, y: string, x: string, p: Path, q: Path)
    requires Less(y, x) && at + [y] <= p && at + [x] <= q
    ensures Before(p, q)
  {
    hide Less;
    BeforeUnder(at, p[|at|..], q[|at|..]);
    assert at + p[|at|..] == p && at + q[|at|..] == q;
    assert p[|at|] == (at + [y])[|at|] && q[|at|] == (at + [x])[|at|];
  }

  // ---- paths and items ----

  /** Some item of the list has this path. */
  ghost predicate HasPath(items: seq<Item>, p: Path) {
    exists i :: 0 <= i < |items| && items[i].path == p
  }

  function ItemOf(p: Path, n: Node): Item {
    match n
    case File(data) => FileItem(p, data)
    case Link(target) => LinkItem(p, target)
    case Dir(_) => DirItem(p)
  }

  /** The items of a tree are its paths with what is there. */
  lemma {:induction false} ListingIsTree(at: Path, n: Node, p: Path)
    ensures Get(n, p).Some? <==> HasPath(Listing(at, n), at + p)
    ensures Get(n, p).Some? ==> ItemOf(at + p, Get(n, p).value) in Listing(at, n)
    decreases n
  {
    assert at + [] == at;
    if n.Dir? {
      hide Less, ItemOf, HasPath;
      var names := InOrder(n.entries.Keys);
      var below := ListingOf(at, n, names);
      DirectoryListed(at, below, at + p);
      if p == [] {
        DirectoryItem(at, n);
      } else {
        assert at + p != at;
        ListingOfIsTree(at, n, names, p);
      }
    } else {
      OnlyItem(at, n, p);
    }
  }

  lemma DirectoryItem(p: Path, n: Node)
    requires n.Dir?
    ensures ItemOf(p, n) == DirItem(p)
  {
  }

  lemma OnlyItem(at: Path, n: Node, p: Path)
    requires !n.Dir?
    ensures Get(n, p).Some? <==> HasPath(Listing(at, n), at + p)
    ensures Get(n, p).Some? ==> ItemOf(at + p, Get(n, p).value) in Listing(at, n)
  {
    var items := Listing(at, n);
    assert at + [] == at && items[0].path == at;
    if p != [] {
      assert |at + p| > |at|;
    }
  }

  lemma DirectoryListed(at: Path, items: seq<Item>, p: Path)
    ensures HasPath([DirItem(at)] + items, p) <==> p == at || HasPath(items, p)
  {
    var all := [DirItem(at)] + items;
    if HasPath(items, p) {
      var i :| 0 <= i < |items| && items[i].path == p;
      assert all[i + 1].path == p;
    }
    if p == at {
      assert all[0].path == p;
    }
    if HasPath(all, p) && p != at {
      var i :| 0 <= i < |all| && all[i].path == p;
      assert items[i - 1].path == p;
    }
  }

  lemma {:induction false} ListingOfIsTree(at: Path, n: Node, names: seq<string>, p: Path)
    requires n.Dir? && p != [] && forall x :: x in names ==> x in n.entries
    ensures Get(n, p).Some? && p[0] in names <==> HasPath(ListingOf(at, n, names), at + p)
    ensures Get(n, p).Some? && p[0] in names ==> ItemOf(at + p, Get(n, p).value) in ListingOf(at, n, names)
    decreases n, |names|
  {
    hide Less, Listing, ItemOf, HasPath;
    if names == [] {
      NothingListed(at + p);
    } else {
      var k := |names| - 1;
      var x := names[k];
      assert names == names[..k] + [x];
      ListingOfIsTree(at, n, names[..k], p);
      var items, more := ListingOf(at, n, names[..k]), Listing(at + [x], n.entries[x]);
      EitherLists(items, more, at + p);
      if p[0] == x {
        ListingIsTree(at + [x], n.entries[x], p[1..]);
        assert at + [x] + p[1..] == at + p;
      } else {
        ListingOrdered(at + [x], n.entries[x]);
        NotBelow(more, at, x, p);
      }
    }
  }

  lemma NothingListed(p: Path)
    ensures !HasPath([], p)
  {
  }

  lemma EitherLists(items: seq<Item>, more: seq<Item>, p: Path)
    ensures HasPath(items + more, p) <==> HasPath(items, p) || HasPath(more, p)
  {
    var all := items + more;
    if HasPath(items, p) {
      var i :| 0 <= i < |items| && items[i].path == p;
      assert all[i].path == p;
    }
    if HasPath(more, p) {
      var i :| 0 <= i < |more| && more[i].path == p;
      assert all[|items| + i].path == p;
    }
  }

  lemma NotBelow(items: seq<Item>, at: Path, x: string, p: Path)
    requires Under(items, at + [x]) && p != [] && p[0] != x
    ensures !HasPath(items, at + p)
  {
    forall i | 0 <= i < |items|
      ensures items[i].path != at + p
    {
      assert (at + [x])[|at|] == x && (at + p)[|at|] == p[0];
    }
  }

  // ---- what a snapshot holds ----

  /** A link of the tree that the copy cannot read. */
  predicate Unreadable(read: Reader, tree: Node, l: Path) {
    Get(tree, l).Some? && Get(tree, l).value.Link? && read(l).None?
  }

  /** A snapshot of a tree holds exactly the paths of the tree that the walk reaches before every link that
      cannot be read. */
  lemma SnapshotHolds(read: Reader, tree: Node, p: Path)
    requires Get(tree, p).Some?
    ensures var snapshot := Copy(read, [], tree, None).node;
      (snapshot.Some? && Get(snapshot.value, p).Some?) <==> forall l :: Unreadable(read, tree, l) ==> Before(p, l)
  {
    hide Copy, Listing, Before, Walked, Get, HasPath, ItemOf, BeforeFailure, Fails;
    var items := Listing([], tree);
    var snapshot := Copy(read, [], tree, None).node;
    CopyIsWalked(read, [], tree);
    ListingOrdered([], tree);
    assert [] + p == p;
    ListingIsTree([], tree, p);
    if snapshot.Some? {
      ListingIsTree([], snapshot.value, p);
    } else {
      NothingListed(p);
    }
    WalkedLists(read, items, p);
    FailuresAreLinks(read, tree);
  }

  /** Of an ordered list, the walk keeps what comes before every failing item. */
  lemma WalkedLists(read: Reader, items: seq<Item>, p: Path)
    requires Ordered(items) && HasPath(items, p)
    ensures HasPath(Walked(read, items), p) <==> forall f :: f in items && Fails(read, f) ==> Before(p, f.path)
  {
    hide Before, Fails;
    var k := BeforeFailure(read, items);
    var i :| 0 <= i < |items| && items[i].path == p;
    if i < k {
      assert Walked(read, items)[i].path == p;
      forall f | f in items && Fails(read, f)
        ensures Before(p, f.path)
      {
        var j :| 0 <= j < |items| && items[j] == f;
        assert i < j;
      }
    } else {
      assert items[k] in items && Fails(read, items[k]);
      NotBeforeEarlier(items, k, i);
      forall j | 0 <= j < k
        ensures Walked(read, items)[j].path != p
      {
        assert Before(items[j].path, items[i].path);
        BeforeIrreflexive(p);
      }
    }
  }

  lemma NotBeforeEarlier(items: seq<Item>, k: nat, i: nat)
    requires Ordered(items) && k <= i < |items|
    ensures !Before(items[i].path, items[k].path)
  {
    hide Before;
    if k == i {
      BeforeIrreflexive(items[i].path);
    } else {
      BeforeAsymmetric(items[k].path, items[i].path);
    }
  }

  lemma FailuresAreLinks(read: Reader, tree: Node)
    ensures forall f :: f in Listing([], tree) && Fails(read, f) ==> Unreadable(read, tree, f.path)
    ensures forall l :: Unreadable(read, tree, l) ==>
      exists f :: f in Listing([], tree) && Fails(read, f) && f.path == l
  {
    hide Listing, Get, HasPath;
    var items := Listing([], tree);
    ListingOrdered([], tree);
    forall f | f in items && Fails(read, f)
      ensures Unreadable(read, tree, f.path)
    {
      var i :| 0 <= i < |items| && items[i] == f;
      assert [] + f.path == f.path;
      FoundAt(items, i);
      ListingIsTree([], tree, f.path);
      OnePerPath(items, f, ItemOf(f.path, Get(tree, f.path).value));
    }
    forall l | Unreadable(read, tree, l)
      ensures exists f :: f in items && Fails(read, f) && f.path == l
    {
      assert [] + l == l;
      ListingIsTree([], tree, l);
      assert Fails(read, LinkItem(l, Get(tree, l).value.target));
    }
  }

  lemma FoundAt(items: seq<Item>, i: nat)
    requires i < |items|
    ensures HasPath(items, items[i].path)
  {
  }

  lemma OnePerPath(items: seq<Item>, f: Item, g: Item)
    requires Ordered(items) && f in items && g in items && f.path == g.path
    ensures f == g
  {
    hide Before;
    var i :| 0 <= i < |items| && items[i] == f;
    var j :| 0 <= j < |items| && items[j] == g;
    BeforeIrreflexive(f.path);
  }

  /** What a snapshot holds at a path is what the tree has there, a link made into a file with what it reads. */
  lemma SnapshotContent(read: Reader, tree: Node, p: Path)
    requires var snapshot := Copy(read, [], tree, None).node; snapshot.Some? && Get(snapshot.value, p).Some?
    ensures Get(tree, p).Some?
    ensures ItemOf(p, Get(Copy(read, [], tree, None).node.value, p).value) == Made(read, ItemOf(p, Get(tree, p).value))
  {
    hide Copy, Listing, Before, Get, HasPath, ItemOf, BeforeFailure, Fails, Made;
    var items, snapshot := Listing([], tree), Copy(read, [], tree, None).node.value;
    CopyIsWalked(read, [], tree);
    ListingOrdered([], tree);
    assert [] + p == p;
    ListingIsTree([], snapshot, p);
    ListingIsTree([], tree, p);
    var kept := ItemOf(p, Get(snapshot, p).value);
    var j :| 0 <= j < |Walked(read, items)| && Walked(read, items)[j] == kept;
    PathOfItem(p, Get(snapshot, p).value);
    PathOfMade(read, items[j]);
    FoundAt(items, j);
    PathOfItem(p, Get(tree, p).value);
    OnePerPath(items, items[j], ItemOf(p, Get(tree, p).value));
  }

  lemma PathOfItem(p: Path, n: Node)
    ensures ItemOf(p, n).path == p
  {
  }

  lemma PathOfMade(read: Reader, item: Item)
    ensures Made(read, item).path == item.path
  {
  }
}
