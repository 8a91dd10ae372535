/** File trees and the recursive copy of internal/pipeline/stage_publish.go. */
module FileTree {
  import opened Wrappers
  import opened Names

  type Data = string
  type Entries = map<string, Node>

  datatype Node =
    | File(data: Data)
    | Dir(entries: Entries)
    | Link(target: string)

  type Path = seq<string>

  /** What `os.ReadFile` gives for the symbolic link at a path of the copied tree:
      the content of the regular file it leads to, or an error. */
  type Reader = Path -> Option<Data>

  // What a copy left at its destination, and whether the walk went to its end.
  datatype Copied = Copied(node: Option<Node>, ok: bool)
  datatype CopiedEntries = CopiedEntries(entries: Entries, ok: bool)

  function WriteFile(data: Data, dst: Option<Node>): Copied {
    if dst.Some? && !dst.value.File? then Copied(dst, false) else Copied(Some(File(data)), true)
  }

  function Lookup(es: Entries, name: string): Option<Node> {
    if name in es then Some(es[name]) else None
  }

  function Updated(es: Entries, name: string, n: Option<Node>): Entries {
    if n.Some? then es[name := n.value] else es
  }

  /** A tree without its top-level entries of some names. */
  function Without(n: Node, names: set<string>): Node {
    if n.Dir? then Dir(n.entries - names) else n
  }

  /** The walk of `filepath.Walk` with the callback of `copyDir`: parents before children,
      children in name order, stopping for good at the first error. */
  ghost function Copy(read: Reader, at: Path, src: Node, dst: Option<Node>): Copied
    decreases src
  {
    match src
    case File(data) => WriteFile(data, dst)
    case Link(_) => if read(at).Some? then WriteFile(read(at).value, dst) else Copied(dst, false)
    case Dir(es) =>
      if dst.Some? && !dst.value.Dir? then Copied(dst, false)
      else
        var r := CopyNamed(read, at, src, InOrder(es.Keys), if dst.None? then map[] else dst.value.entries);
        Copied(Some(Dir(r.entries)), r.ok)
  }

  /** The walk over the entries of a directory named in a list. */
  ghost function CopyNamed(read: Reader, at: Path, src: Node, names: seq<string>, dst: Entries): CopiedEntries
    requires src.Dir? && forall x :: x in names ==> x in src.entries
    decreases src, |names|
  {
    if names == [] then CopiedEntries(dst, true)
    else
      var before := CopyNamed(read, at, src, names[..|names| - 1], dst);
      if !before.ok then before
      else
        var x := names[|names| - 1];
        var r := Copy(read, at + [x], src.entries[x], Lookup(before.entries, x));
        CopiedEntries(Updated(before.entries, x, r.node), r.ok)
  }

  /** No symbolic links anywhere. */
  ghost predicate Plain(n: Node) {
    match n
    case File(_) => true
    case Link(_) => false
    case Dir(es) => forall x :: x in es ==> Plain(es[x])
  }

  ghost predicate PlainOn(names: seq<string>, es: Entries) {
    forall x :: x in names && x in es ==> Plain(es[x])
  }

  ghost predicate SameOn(names: seq<string>, es: Entries, fs: Entries) {
    forall x :: x in names ==> x in es && x in fs && es[x] == fs[x]
  }

  /** A copy to a free place is the tree itself exactly when the tree has no symbolic link. */
  lemma {:induction false} CopyIsExact(read: Reader, at: Path, src: Node)
    ensures Copy(read, at, src, None).node == Some(src) <==> Plain(src)
    ensures Plain(src) ==> Copy(read, at, src, None).ok
    decreases src
  {
    if src.Dir? {
      hide Less;
      var names := InOrder(src.entries.Keys);
      CopyNamedIsExact(read, at, src, names);
      assert PlainOn(names, src.entries) <==> Plain(src);
      if PlainOn(names, src.entries) {
        assert CopyNamed(read, at, src, names, map[]).entries == src.entries;
      } else {
        assert CopyNamed(read, at, src, names, map[]).entries != src.entries;
      }
    }
  }

  lemma {:induction false} CopyNamedIsExact(read: Reader, at: Path, src: Node, names: seq<string>)
    requires src.Dir? && Ascending(names) && forall x :: x in names ==> x in src.entries
    ensures var r := CopyNamed(read, at, src, names, map[]);
      && (forall x :: x in r.entries ==> x in names)
      && (SameOn(names, r.entries, src.entries) <==> PlainOn(names, src.entries))
      && (PlainOn(names, src.entries) ==> r.ok)
    decreases src, |names|
  {
    hide Less;
    if names != [] {
      var n := |names| - 1;
      var x := names[n];
      assert names == names[..n] + [x];
      LastIsNew(names, names[..n], x);
      CopyNamedIsExact(read, at, src, names[..n]);
      CopyIsExact(read, at + [x], src.entries[x]);
      var before := CopyNamed(read, at, src, names[..n], map[]);
      LastEntry(names, before.entries, src.entries,
        if before.ok then Copy(read, at + [x], src.entries[x], None).node else None);
    }
  }

  lemma LastEntry(names: seq<string>, es: Entries, fs: Entries, last: Option<Node>)
    requires names != [] && Ascending(names) && names[|names| - 1] in fs && names[|names| - 1] !in es
    ensures var n, x := |names| - 1, names[|names| - 1];
      && (SameOn(names, Updated(es, x, last), fs) <==> SameOn(names[..n], es, fs) && last == Some(fs[x]))
      && (PlainOn(names, fs) <==> PlainOn(names[..n], fs) && Plain(fs[x]))
  {
    hide Less, Plain;
    var n, x := |names| - 1, names[|names| - 1];
    assert names == names[..n] + [x];
    LastIsNew(names, names[..n], x);
    if SameOn(names, Updated(es, x, last), fs) {
      forall y | y in names[..n]
        ensures y in es && y in fs && es[y] == fs[y]
      {
        assert y in names;
      }
      assert x in names;
    }
    if PlainOn(names, fs) {
      assert x in names;
      assert PlainOn(names[..n], fs);
    }
  }

  // ---- what a copy that stops early has copied ----

  datatype Item =
    | DirItem(path: Path)
    | FileItem(path: Path, data: Data)
    | LinkItem(path: Path, target: string)

  /** The items of a tree in the order of the walk. */
  ghost function Listing(at: Path, n: Node): seq<Item>
    decreases n
  {
    match n
    case File(data) => [FileItem(at, data)]
    case Link(target) => [LinkItem(at, target)]
    case Dir(es) => [DirItem(at)] + ListingOf(at, n, InOrder(es.Keys))
  }

  ghost function ListingOf(at: Path, n: Node, names: seq<string>): seq<Item>
    requires n.Dir? && forall x :: x in names ==> x in n.entries
    decreases n, |names|
  {
    if names == [] then []
    else
      var x := names[|names| - 1];
      ListingOf(at, n, names[..|names| - 1]) + Listing(at + [x], n.entries[x])
  }

  ghost function ListingIfAny(at: Path, n: Option<Node>): seq<Item> {
    if n.Some? then Listing(at, n.value) else []
  }

  predicate Fails(read: Reader, item: Item) {
    item.LinkItem? && read(item.path).None?
  }

  /** The item a copy makes of an item: a link becomes a file with the content it leads to. */
  function Made(read: Reader, item: Item): Item {
    if item.LinkItem? && read(item.path).Some? then FileItem(item.path, read(item.path).value) else item
  }

  /** How many items come before the first one that cannot be copied. */
  function BeforeFailure(read: Reader, items: seq<Item>): (k: nat)
    ensures k <= |items|
    ensures forall i :: 0 <= i < k ==> !Fails(read, items[i])
    ensures k < |items| ==> Fails(read, items[k])
  {
    if items == [] || Fails(read, items[0]) then 0 else 1 + BeforeFailure(read, items[1..])
  }

  function MadeOf(read: Reader, items: seq<Item>): (r: seq<Item>)
    ensures |r| == |items|
  {
    seq(|items|, i requires 0 <= i < |items| => Made(read, items[i]))
  }

  /** The items a walk copies: those before the first failure. */
  function Walked(read: Reader, items: seq<Item>): seq<Item> {
    MadeOf(read, items[..BeforeFailure(read, items)])
  }

  lemma WalkedConcat(read: Reader, xs: seq<Item>, ys: seq<Item>)
    ensures BeforeFailure(read, xs + ys) ==
      if BeforeFailure(read, xs) < |xs| then BeforeFailure(read, xs) else |xs| + BeforeFailure(read, ys)
    ensures Walked(read, xs + ys) ==
      if BeforeFailure(read, xs) < |xs| then Walked(read, xs) else Walked(read, xs) + Walked(read, ys)
  {
    hide Fails, Made, BeforeFailure;
    var k, l, m := BeforeFailure(read, xs), BeforeFailure(read, ys), BeforeFailure(read, xs + ys);
    FirstFailure(read, xs + ys, if k < |xs| then k else |xs| + l);
  }

  lemma FirstFailure(read: Reader, items: seq<Item>, k: nat)
    requires k <= |items| && forall i :: 0 <= i < k ==> !Fails(read, items[i])
    requires k < |items| ==> Fails(read, items[k])
    ensures BeforeFailure(read, items) == k
  {
    var m := BeforeFailure(read, items);
    if m < k {
      assert false;
    }
  }

  /** The copy made at a free place holds exactly the part of the tree walked before the first
      link that cannot be read, and the copy reports success exactly when there is none. */
  lemma {:induction false} CopyIsWalked(read: Reader, at: Path, src: Node)
    ensures var r, items := Copy(read, at, src, None), Listing(at, src);
      && ListingIfAny(at, r.node) == Walked(read, items)
      && (r.ok <==> BeforeFailure(read, items) == |items|)
    decreases src
  {
    if src.Dir? {
      hide Less;
      var names := InOrder(src.entries.Keys);
      CopyNamedIsWalked(read, at, src, names);
      DirectoryWalked(read, at, ListingOf(at, src, names));
    }
  }

  lemma DirectoryWalked(read: Reader, at: Path, items: seq<Item>)
    ensures Walked(read, [DirItem(at)] + items) == [DirItem(at)] + Walked(read, items)
    ensures BeforeFailure(read, [DirItem(at)] + items) == 1 + BeforeFailure(read, items)
  {
    WalkedConcat(read, [DirItem(at)], items);
    assert Walked(read, [DirItem(at)]) == [DirItem(at)];
  }

  lemma {:induction false} CopyNamedIsWalked(read: Reader, at: Path, src: Node, names: seq<string>)
    requires src.Dir? && Ascending(names) && forall x :: x in names ==> x in src.entries
    ensures var r, items := CopyNamed(read, at, src, names, map[]), ListingOf(at, src, names);
      && (forall x :: x in r.entries ==> x in names)
      && ListingOf(at, Dir(r.entries), InOrder(r.entries.Keys)) == Walked(read, items)
      && (r.ok <==> BeforeFailure(read, items) == |items|)
    decreases src, |names|
  {
    hide Less, Listing, Copy, Fails, MadeOf;
    if names == [] {
      InOrderIs({}, []);
    } else {
      var n := |names| - 1;
      var x := names[n];
      assert names == names[..n] + [x];
      LastIsNew(names, names[..n], x);
      CopyNamedIsWalked(read, at, src, names[..n]);
      CopyIsWalked(read, at + [x], src.entries[x]);
      var before := CopyNamed(read, at, src, names[..n], map[]);
      WalkedConcat(read, ListingOf(at, src, names[..n]), Listing(at + [x], src.entries[x]));
      if before.ok {
        EntryListed(at, before.entries, x, Copy(read, at + [x], src.entries[x], None).node);
      }
    }
  }

  lemma EntryListed(at: Path, es: Entries, x: string, n: Option<Node>)
    requires forall y :: y in es ==> Less(y, x)
    ensures ListingOf(at, Dir(Updated(es, x, n)), InOrder(Updated(es, x, n).Keys)) ==
      ListingOf(at, Dir(es), InOrder(es.Keys)) + ListingIfAny(at + [x], n)
  {
    hide Less, Listing, ListingOf;
    if n.Some? {
      var fs := es[x := n.value];
      LessIrreflexive(x);
      InOrderAppend(es.Keys, x);
      assert fs.Keys == es.Keys + {x};
      ListingGrows(at, Dir(fs), InOrder(es.Keys), x);
      SameListing(at, es, fs, InOrder(es.Keys));
    }
  }

  lemma ListingGrows(at: Path, n: Node, names: seq<string>, x: string)
    requires n.Dir? && x in n.entries && forall y :: y in names ==> y in n.entries
    ensures ListingOf(at, n, names + [x]) == ListingOf(at, n, names) + Listing(at + [x], n.entries[x])
  {
    hide Listing;
    assert (names + [x])[..|names|] == names;
  }

  lemma {:induction false} SameListing(at: Path, es: Entries, fs: Entries, names: seq<string>)
    requires forall x :: x in names ==> x in es && x in fs && es[x] == fs[x]
    ensures ListingOf(at, Dir(es), names) == ListingOf(at, Dir(fs), names)
  {
    if names != [] {
      SameListing(at, es, fs, names[..|names| - 1]);
    }
  }
}
