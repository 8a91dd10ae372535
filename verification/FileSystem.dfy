/** The operations of package os that publish and rollback use, on the tree under the repository root. */
module FileSystem {
  import opened Wrappers
  import opened Names
  import opened FileTree

  function Get(n: Node, p: Path): Option<Node> {
    if p == [] then Some(n)
    else if n.Dir? && p[0] in n.entries then Get(n.entries[p[0]], p[1..])
    else None
  }

  /** The tree with a node put at a path whose parent is a directory. */
  function Put(n: Node, p: Path, v: Node): Node {
    if p == [] then v
    else if !n.Dir? then n
    else if |p| == 1 then Dir(n.entries[p[0] := v])
    else if p[0] in n.entries then Dir(n.entries[p[0] := Put(n.entries[p[0]], p[1..], v)])
    else n
  }

  function Cut(n: Node, p: Path): Node
    requires p != []
  {
    if !n.Dir? || p[0] !in n.entries then n
    else if |p| == 1 then Dir(n.entries - {p[0]})
    else Dir(n.entries[p[0] := Cut(n.entries[p[0]], p[1..])])
  }

  predicate IsDir(n: Node, p: Path) {
    Get(n, p).Some? && Get(n, p).value.Dir?
  }

  /** `os.Rename` succeeds when the old name exists and the new one is free in an existing directory,
      or both are names of things that are not directories. */
  predicate CanRename(n: Node, old_: Path, new_: Path)
    requires old_ != [] && new_ != []
  {
    && Get(n, old_).Some?
    && IsDir(n, new_[..|new_| - 1])
    && !(old_ <= new_)
    && (Get(n, new_).None? || (!Get(n, old_).value.Dir? && !Get(n, new_).value.Dir?))
  }

  /** A path below the root. */
  type Place = p: Path | p != [] witness [""]

  /** One change of the tree. */
  datatype FileOp =
    | Move(src: Place, dst: Place)
    | Remove(path: Place)
    | MakeDir(path: Place)
    | CopyTo(read: Reader, src: Place, dst: Place, exclude: set<string>)
    | Fill(path: Place, node: Node)    // what the tools of a build leave there

  /** The entries of the root that a change reads or writes. */
  function Touches(op: FileOp): set<string> {
    match op
    case Move(src, dst) => {src[0], dst[0]}
    case Remove(p) => {p[0]}
    case MakeDir(p) => {p[0]}
    case CopyTo(_, src, dst, _) => {src[0], dst[0]}
    case Fill(p, _) => {p[0]}
  }

  function Renamed(n: Node, old_: Place, new_: Place): Node {
    if CanRename(n, old_, new_) then Put(Cut(n, old_), new_, Get(n, old_).value) else n
  }

  function WithDir(n: Node, p: Place): Node {
    if IsDir(n, p[..|p| - 1]) && Get(n, p).None? then Put(n, p, Dir(map[])) else n
  }

  ghost function WithCopy(n: Node, read: Reader, src: Place, dst: Place, exclude: set<string>): Node {
    if Get(n, src).None? then n
    else
      var r := Copy(read, [], Without(Get(n, src).value, exclude), Get(n, dst));
      if r.node.Some? then Put(n, dst, r.node.value) else n
  }

  ghost function Apply(n: Node, op: FileOp): (r: Node)
    ensures n.Dir? ==> r.Dir?
  {
    match op
    case Move(src, dst) => Renamed(n, src, dst)
    case Remove(p) => Cut(n, p)
    case MakeDir(p) => WithDir(n, p)
    case CopyTo(read, src, dst, exclude) => WithCopy(n, read, src, dst, exclude)
    case Fill(p, node) => Put(n, p, node)
  }

  ghost function Replay(n: Node, ops: seq<FileOp>): (r: Node)
    ensures n.Dir? ==> r.Dir?
  {
    if ops == [] then n else Apply(Replay(n, ops[..|ops| - 1]), ops[|ops| - 1])
  }

  /** `after` goes on from `before` with changes that touch only these entries. */
  ghost predicate Adds(before: seq<FileOp>, after: seq<FileOp>, names: set<string>) {
    before <= after && forall i :: |before| <= i < |after| ==> Touches(after[i]) <= names
  }

  lemma AddsTwice(a: seq<FileOp>, b: seq<FileOp>, c: seq<FileOp>, names: set<string>)
    requires Adds(a, b, names) && Adds(b, c, names)
    ensures Adds(a, c, names)
  {
  }

  /** The tree under the repository root, with a record of the changes made to it. */
  class Disk {
    var root: Node
    ghost const start: Node
    ghost var ops: seq<FileOp>

    ghost predicate Logged()
      reads this
    {
      root == Replay(start, ops)
    }

    ghost predicate Valid()
      reads this
    {
      root.Dir? && Logged()
    }

    ghost function Tree(): Entries
      requires Valid()
      reads this
    {
      root.entries
    }

    constructor (tree: Entries)
      ensures Valid() && Tree() == tree && start == Dir(tree) && ops == []
    {
      root := Dir(tree);
      start, ops := Dir(tree), [];
    }

    ghost method Record(before: Node, op: FileOp)
      requires before == Replay(start, ops) && root == Apply(before, op)
      modifies this`ops
      ensures Logged() && ops == old(ops) + [op]
    {
      assert (ops + [op])[..|ops|] == ops;
      ops := ops + [op];
    }

    method Rename(old_: Place, new_: Place) returns (ok: bool)
      requires Valid()
      modifies this
      ensures Valid() && ops == old(ops) + [Move(old_, new_)]
      ensures ok <==> CanRename(old(root), old_, new_)
      ensures root == if ok then Put(Cut(old(root), old_), new_, Get(old(root), old_).value) else old(root)
      ensures ok ==> Get(old(root), old_).Some? && !IsDir(old(root), new_)
    {
      ghost var before := root;
      ok := CanRename(root, old_, new_);
      if ok {
        root := Put(Cut(root, old_), new_, Get(root, old_).value);
      }
      Record(before, Move(old_, new_));
    }

    method RemoveAll(p: Place)
      requires Valid()
      modifies this
      ensures Valid() && ops == old(ops) + [Remove(p)]
      ensures root == Cut(old(root), p)
    {
      ghost var before := root;
      root := Cut(root, p);
      Record(before, Remove(p));
    }

    /** `os.MkdirAll` of a name whose parent is a directory. */
    method Mkdir(p: Place)
      requires Valid()
      modifies this
      ensures Valid() && ops == old(ops) + [MakeDir(p)]
      ensures root == WithDir(old(root), p)
    {
      ghost var before := root;
      if IsDir(root, p[..|p| - 1]) && Get(root, p).None? {
        root := Put(root, p, Dir(map[]));
      }
      Record(before, MakeDir(p));
    }

    /** Tools outside the model leave this tree at a path. */
    method Store(p: Place, node: Node)
      requires Valid()
      modifies this
      ensures Valid() && ops == old(ops) + [Fill(p, node)]
      ensures root == Put(old(root), p, node)
    {
      ghost var before := root;
      root := Put(root, p, node);
      Record(before, Fill(p, node));
    }
  }

  // ---- paths of one, two and three names ----

  lemma GetCons(n: Node, a: string, rest: Path)
    ensures Get(n, [a] + rest) == if n.Dir? && a in n.entries then Get(n.entries[a], rest) else None
  {
    assert ([a] + rest)[1..] == rest;
  }

  lemma PutCons(n: Node, a: string, rest: Path, v: Node)
    requires n.Dir? && a in n.entries && rest != []
    ensures Put(n, [a] + rest, v) == Dir(n.entries[a := Put(n.entries[a], rest, v)])
  {
    assert ([a] + rest)[1..] == rest;
  }

  lemma CutCons(n: Node, a: string, rest: Path)
    requires n.Dir? && a in n.entries && rest != []
    ensures Cut(n, [a] + rest) == Dir(n.entries[a := Cut(n.entries[a], rest)])
  {
    assert ([a] + rest)[1..] == rest;
  }

  /** The node b in the directory n, if there is one. */
  function Child(n: Option<Node>, b: string): Option<Node> {
    if n.Some? && n.value.Dir? then Lookup(n.value.entries, b) else None
  }

  lemma GetShort(m: Entries, a: string, b: string, c: string)
    ensures Get(Dir(m), []) == Some(Dir(m))
    ensures Get(Dir(m), [a]) == Lookup(m, a)
    ensures Get(Dir(m), [a, b]) == Child(Lookup(m, a), b)
    ensures Get(Dir(m), [a, b, c]) == Child(Child(Lookup(m, a), b), c)
  {
    GetCons(Dir(m), a, []);
    GetCons(Dir(m), a, [b]);
    GetCons(Dir(m), a, [b, c]);
    assert [a] + [] == [a] && [a] + [b] == [a, b] && [a] + [b, c] == [a, b, c];
    if a in m {
      GetCons(m[a], b, []);
      GetCons(m[a], b, [c]);
      assert [b] + [] == [b] && [b] + [c] == [b, c];
      if m[a].Dir? && b in m[a].entries {
        GetCons(m[a].entries[b], c, []);
        assert [c] + [] == [c];
      }
    }
  }

  lemma PutShort(m: Entries, a: string, b: string, v: Node)
    ensures Put(Dir(m), [a], v) == Dir(m[a := v])
    ensures a in m && m[a].Dir? ==> Put(Dir(m), [a, b], v) == Dir(m[a := Dir(m[a].entries[b := v])])
  {
    if a in m {
      PutCons(Dir(m), a, [b], v);
      assert [a] + [b] == [a, b];
    }
  }

  lemma PutLong(m: Entries, a: string, b: string, c: string, v: Node)
    requires a in m && m[a].Dir? && b in m[a].entries && m[a].entries[b].Dir?
    ensures Put(Dir(m), [a, b, c], v) ==
      Dir(m[a := Dir(m[a].entries[b := Dir(m[a].entries[b].entries[c := v])])])
  {
    PutCons(Dir(m), a, [b, c], v);
    PutCons(m[a], b, [c], v);
    assert [a] + [b, c] == [a, b, c] && [b] + [c] == [b, c];
  }

  lemma CutShort(m: Entries, a: string, b: string)
    ensures Cut(Dir(m), [a]) == Dir(m - {a})
    ensures a in m && m[a].Dir? ==> Cut(Dir(m), [a, b]) == Dir(m[a := Dir(m[a].entries - {b})])
  {
    assert a !in m ==> m - {a} == m;
    if a in m && m[a].Dir? {
      CutCons(Dir(m), a, [b]);
      assert [a] + [b] == [a, b];
      assert b !in m[a].entries ==> m[a].entries - {b} == m[a].entries;
    }
  }

  lemma CutLong(m: Entries, a: string, b: string, c: string)
    requires a in m && m[a].Dir? && b in m[a].entries && m[a].entries[b].Dir?
    ensures Cut(Dir(m), [a, b, c]) == Dir(m[a := Dir(m[a].entries[b := Dir(m[a].entries[b].entries - {c})])])
  {
    CutCons(Dir(m), a, [b, c]);
    CutCons(m[a], b, [c]);
    assert [a] + [b, c] == [a, b, c] && [b] + [c] == [b, c];
    var es := m[a].entries[b].entries;
    assert c !in es ==> es - {c} == es;
  }
}
