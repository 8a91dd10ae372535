/** Where symbolic links lead in a tree, as the operating system follows them, and what reading through
    them gives. */
module Links {
  import opened Wrappers
  import opened SplitText
  import opened FileTree
  import opened FileSystem

  /** The names of a path. */
  function Components(path: string): (p: Path)
    ensures p != []
  {
    Split(path, '/')
  }

  /** What a path names: a file or directory of the tree, nothing, or something outside the tree. */
  datatype Found = Inside(node: Node) | Nothing | Outside

  /** How many links the operating system follows before it gives up. */
  const MAX_LINKS := 40

  /** Follows the names of a path from a directory of the tree. */
  function Walk(tree: Node, at: Path, names: Path, links: nat): Found
    decreases links, |names|
  {
    if names == [] then
      if Get(tree, at).Some? then Inside(Get(tree, at).value) else Nothing
    else if !IsDir(tree, at) then Nothing
    else if names[0] == ".." then
      if at == [] then Outside else Walk(tree, at[..|at| - 1], names[1..], links)
    else if names[0] == "" || names[0] == "." then Walk(tree, at, names[1..], links)
    else
      var n := Get(tree, at + [names[0]]);
      if n.None? then Nothing
      else if n.value.Link? then
        var target := Components(n.value.target);
        if target[0] == "" then Outside        // an absolute path
        else if links == 0 then Nothing
        else Walk(tree, at, target + names[1..], links - 1)
      else Walk(tree, at + [names[0]], names[1..], links)
  }

  /** `os.ReadFile` at a path of the tree: a regular file can be read, a directory and a missing file cannot.
      `outside` answers for links that leave the tree. */
  function ReaderOf(tree: Node, outside: Reader): Reader {
    (p: Path) =>
      match Walk(tree, [], p, MAX_LINKS)
      case Inside(File(data)) => Some(data)
      case Inside(_) => None
      case Nothing => None
      case Outside => outside(p)
  }

  /** A name that stands for an entry of its directory. */
  predicate PlainName(name: string) { name != "" && name != "." && name != ".." }

  ghost predicate PlainPath(p: Path) { forall x :: x in p ==> PlainName(x) }

  lemma {:induction false} GetConcat(n: Node, p: Path, q: Path)
    ensures Get(n, p + q) == if Get(n, p).Some? then Get(Get(n, p).value, q) else None
    decreases |p|
  {
    if p == [] {
      assert p + q == q;
    } else {
      assert (p + q)[1..] == p[1..] + q;
      if n.Dir? && p[0] in n.entries {
        GetConcat(n.entries[p[0]], p[1..], q);
      }
    }
  }

  /** Plain names lead straight to what they name, unless that is a link. */
  lemma {:induction false} WalkPlain(tree: Node, at: Path, names: Path, links: nat)
    requires PlainPath(names) && Get(tree, at + names).Some?
    requires names == [] || !Get(tree, at + names).value.Link?
    ensures Walk(tree, at, names, links) == Inside(Get(tree, at + names).value)
    decreases |names|
  {
    hide Get;
    if names == [] {
      assert at + names == at;
    } else {
      var x, rest := names[0], names[1..];
      assert at + names == at + [x] + rest && PlainName(x);
      AboveIsDir(tree, at, names);
      if rest != [] {
        AboveIsDir(tree, at + [x], rest);
      } else {
        assert at + [x] + rest == at + [x];
      }
      WalkPlain(tree, at + [x], rest, links);
    }
  }

  lemma AboveIsDir(tree: Node, at: Path, names: Path)
    requires names != [] && Get(tree, at + names).Some?
    ensures IsDir(tree, at)
  {
    GetConcat(tree, at, names);
  }

  /** A link in a directory at the top whose target goes up once and then down plain names:
      it leads where these names lead from the top. */
  lemma WalkAlias(tree: Node, distro: string, version: string, target: string, path: Path)
    requires PlainName(distro) && PlainName(version) && PlainPath(path) && path != []
    requires Get(tree, [distro, version]) == Some(Link(target)) && Components(target) == [".."] + path
    requires Get(tree, path).Some? && !Get(tree, path).value.Link?
    ensures Walk(tree, [], [distro, version], MAX_LINKS) == Inside(Get(tree, path).value)
  {
    hide Get, Components;
    assert [] + [distro] == [distro] && [distro] + [version] == [distro, version];
    AboveIsDir(tree, [distro], [version]);
    AboveIsDir(tree, [], [distro]);
    assert [distro, version][1..] == [version] && [version][1..] == [];
    assert Components(target) + [] == [".."] + path && ([".."] + path)[1..] == path && [distro][..0] == [];
    assert [] + path == path;
    WalkPlain(tree, [], path, MAX_LINKS - 1);
    assert Walk(tree, [distro], [".."] + path, MAX_LINKS - 1) == Walk(tree, [], path, MAX_LINKS - 1);
    assert Walk(tree, [distro], [version], MAX_LINKS) == Walk(tree, [distro], [".."] + path, MAX_LINKS - 1);
  }

  /** Such a link to a directory cannot be read. */
  lemma AliasUnreadable(tree: Node, outside: Reader, distro: string, version: string, target: string, path: Path)
    requires PlainName(distro) && PlainName(version) && PlainPath(path) && path != []
    requires Get(tree, [distro, version]) == Some(Link(target)) && Components(target) == [".."] + path
    requires IsDir(tree, path)
    ensures ReaderOf(tree, outside)([distro, version]) == None
  {
    WalkAlias(tree, distro, version, target, path);
  }
}
