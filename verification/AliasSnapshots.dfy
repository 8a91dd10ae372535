/** What a snapshot keeps of a tree that the build stage has laid out
    (internal/pipeline/symlink.go, internal/pipeline/stage_publish.go). */
module AliasSnapshots {
  import opened Wrappers
  import opened Names
  import opened FileTree
  import opened FileSystem
  import opened Snapshots
  import opened Links
  import opened WalkOrder
  import opened DistroMap
  import opened StageBuild
  import opened Publish
  import opened Rollback
  import SnapshotRuns
  import opened SplitText

  /** The links of a tree are the aliases of some distributions, each beside the directory of its line. */
  ghost predicate HasAliases(tree: Node, dvs: seq<string>) {
    var aliases := LinksOf(dvs, []);
    && (forall k :: k in aliases ==> Get(tree, Components(k)) == Some(Link(aliases[k])))
    && (forall p :: Get(tree, p).Some? && Get(tree, p).value.Link? ==> exists k :: k in aliases && Components(k) == p)
    && (forall dv :: dv in dvs && Resolve(dv, []).Some? ==> IsDir(tree, Components(Resolve(dv, []).value.path)))
  }

  /** Every alias is that of a distribution of the list. */
  lemma {:induction false} AliasComesFrom(dvs: seq<string>, k: string) returns (dv: string)
    requires k in LinksOf(dvs, [])
    ensures dv in dvs && Resolve(dv, []).Some? && k == LinkPath(dv)
    ensures LinksOf(dvs, [])[k] == "../" + Resolve(dv, []).value.path
  {
    hide Resolve, LinkPath;
    var n := |dvs| - 1;
    var r := Resolve(dvs[n], []);
    if r.Some? && LinkPath(dvs[n]) != r.value.path && k == LinkPath(dvs[n]) {
      dv := dvs[n];
    } else {
      dv := AliasComesFrom(dvs[..n], k);
    }
  }

  /** The links that cannot be read are exactly the aliases: each leads to a directory. */
  lemma AliasesUnreadable(tree: Node, outside: Reader, dvs: seq<string>, p: Path)
    requires HasAliases(tree, dvs)
    ensures Unreadable(ReaderOf(tree, outside), tree, p) <==> exists k :: k in LinksOf(dvs, []) && Components(k) == p
  {
    hide Get, Components, ReaderOf, Walk, Resolve, LinksOf;
    if k :| k in LinksOf(dvs, []) && Components(k) == p {
      var dv := AliasComesFrom(dvs, k);
      var path := Resolve(dv, []).value.path;
      AliasIsPlain(dv);
      var d := ParseDistroVersion(dv);
      TargetNames(path);
      AliasUnreadable(tree, outside, d.distro, d.version, LinksOf(dvs, [])[k], Components(path));
    }
  }

  lemma AliasIsPlain(dv: string)
    requires Resolve(dv, []).Some?
    ensures var d := ParseDistroVersion(dv);
      Components(LinkPath(dv)) == [d.distro, d.version] && PlainName(d.distro) && PlainName(d.version)
    ensures PlainPath(Components(Resolve(dv, []).value.path))
  {
    InDefaults(dv);
    hide Resolve, Components, PlainPair;
    ResolvedIsPlain(dv, []);
    AliasNames(dv);
    PairIsPlain(dv);
    BuiltInPaths(Resolve(dv, []).value);
  }

  lemma PairIsPlain(dv: string)
    requires PlainPair(dv)
    ensures var d := ParseDistroVersion(dv); PlainName(d.distro) && PlainName(d.version)
  {
    var distro, version :| Simple(distro) && Simple(version) && dv == distro + ":" + version;
    ShapeOf(dv, distro, version);
  }

  /** A snapshot of such a tree holds exactly the paths that come before every alias in the order of the walk;
      whatever comes after the first alias is lost. */
  lemma KeptBeforeAliases(tree: Node, outside: Reader, dvs: seq<string>, p: Path)
    requires HasAliases(tree, dvs) && Get(tree, p).Some?
    ensures var snapshot := Copy(ReaderOf(tree, outside), [], tree, None).node;
      (snapshot.Some? && Get(snapshot.value, p).Some?) <==>
        forall k :: k in LinksOf(dvs, []) ==> Before(p, Components(k))
  {
    hide Get, Copy, HasAliases, LinksOf, Before, ReaderOf, Unreadable, Components;
    var read := ReaderOf(tree, outside);
    SnapshotHolds(read, tree, p);
    forall l
      ensures Unreadable(read, tree, l) <==> exists k :: k in LinksOf(dvs, []) && Components(k) == l
    {
      AliasesUnreadable(tree, outside, dvs, l);
    }
  }

  /** The packages of a line are kept exactly when no alias comes before them: for a line in a directory of its
      own, when the name of its directory comes before every distribution that has an alias elsewhere. */
  lemma LineKept(tree: Node, outside: Reader, dvs: seq<string>, name: string, arch: string)
    requires HasAliases(tree, dvs) && Get(tree, [name, arch, "Packages"]).Some?
    requires forall dv :: dv in dvs && Resolve(dv, []).Some? ==> ParseDistroVersion(dv).distro != name
    ensures var snapshot := Copy(ReaderOf(tree, outside), [], tree, None).node;
      (snapshot.Some? && Get(snapshot.value, [name, arch, "Packages"]).Some?) <==>
        forall k :: k in LinksOf(dvs, []) ==> Less(name, Components(k)[0])
  {
    hide Get, Copy, HasAliases, ReaderOf, Components, LinksOf, Less, Resolve, LinkPath;
    KeptBeforeAliases(tree, outside, dvs, [name, arch, "Packages"]);
    forall k | k in LinksOf(dvs, [])
      ensures Before([name, arch, "Packages"], Components(k)) <==> Less(name, Components(k)[0])
    {
      var dv := AliasComesFrom(dvs, k);
      AliasIsPlain(dv);
    }
  }

  /** The packages of Fedora are never kept: its own aliases lie in its directory and come first, unless an
      architecture comes before a version number. */
  lemma FedoraLost(tree: Node, outside: Reader, dvs: seq<string>, version: string, arch: string)
    requires HasAliases(tree, dvs) && "fedora/" + version in LinksOf(dvs, []) && '/' !in version
    requires Less(version, arch) && Get(tree, ["fedora", arch, "Packages"]).Some?
    ensures var snapshot := Copy(ReaderOf(tree, outside), [], tree, None).node;
      !(snapshot.Some? && Get(snapshot.value, ["fedora", arch, "Packages"]).Some?)
  {
    hide Get, Copy, HasAliases, ReaderOf, LinksOf, Split;
    KeptBeforeAliases(tree, outside, dvs, ["fedora", arch, "Packages"]);
    hide Components;
    FedoraNames(version);
    LessIrreflexive("fedora");
    LessAsymmetric(version, arch);
    var p, q := ["fedora", arch, "Packages"], ["fedora", version];
    assert p[1..] == [arch, "Packages"] && q[1..] == [version];
    assert [version][1..] == [];
    assert !Before(p[1..], q[1..]);
  }

  lemma FedoraNames(version: string)
    requires '/' !in version
    ensures Components("fedora/" + version) == ["fedora", version]
  {
    hide Split;
    SplitAtSeparator("fedora", version, '/');
    NothingToSplit("fedora", '/');
    NothingToSplit(version, '/');
    assert "fedora/" + version == "fedora" + ['/'] + version;
  }

  /** The two trees have the same at a path: the same file, or each a directory. */
  predicate SameAt(a: Node, b: Node, p: Path) {
    && Get(a, p).Some? && Get(b, p).Some?
    && (Get(a, p).value == Get(b, p).value || (Get(a, p).value.Dir? && Get(b, p).value.Dir?))
  }

  /** Publishing over a tree with aliases and rolling back to the snapshot brings back exactly the paths that come
      before every alias, with what was there, and nothing else. */
  lemma RollbackOfAliases(s: SnapshotRuns.State, op: SnapshotRuns.Op, outside: Reader, dvs: seq<string>, p: Path)
    requires op.Publish? && SnapshotRuns.Legal(s, op) && SnapshotRuns.Good(s) && s.prod.Some?
    requires HasAliases(Without(s.prod.value, {ROLLBACK}), dvs)
    requires op.read.backup == ReaderOf(Without(s.prod.value, {ROLLBACK}), outside)
    ensures var published := SnapshotRuns.Next(s, op);
      && op.timestamp in History(published.prod.value)
      && var before := Without(s.prod.value, {ROLLBACK});
      var back := Without(SnapshotRuns.Next(published, SnapshotRuns.Rollback(op.timestamp)).prod.value, {ROLLBACK});
      && (Get(back, p).Some? <==>
            Get(before, p).Some? && forall k :: k in LinksOf(dvs, []) ==> Before(p, Components(k)))
      && (Get(back, p).Some? ==> SameAt(back, before, p))
  {
    hide Get, Copy, HasAliases, LinksOf, Before, ReaderOf, Components, Without, History, Restored, Published,
      SnapshotRuns.Good, SnapshotRuns.Legal;
    var before := Without(s.prod.value, {ROLLBACK});
    SnapshotRuns.RollbackUndoesPublish(s, op);
    var published := SnapshotRuns.Next(s, op);
    var back := Without(SnapshotRuns.Next(published, SnapshotRuns.Rollback(op.timestamp)).prod.value, {ROLLBACK});
    if Get(back, p).Some? {
      SnapshotContent(op.read.backup, before, p);
      KeptBeforeAliases(before, outside, dvs, p);
      KeptIsSame(back, before, op.read.backup, dvs, p);
    } else if Get(before, p).Some? {
      KeptBeforeAliases(before, outside, dvs, p);
    }
  }

  lemma KeptIsSame(back: Node, before: Node, read: Reader, dvs: seq<string>, p: Path)
    requires HasAliases(before, dvs) && Get(back, p).Some? && Get(before, p).Some?
    requires forall k :: k in LinksOf(dvs, []) ==> Before(p, Components(k))
    requires ItemOf(p, Get(back, p).value) == FileTree.Made(read, ItemOf(p, Get(before, p).value))
    ensures SameAt(back, before, p)
  {
    hide Get, LinksOf, Before, Components;
    BeforeIrreflexive(p);
  }

  /** A product served to a distribution through an alias, as the build stage lays it out. */
  function AliasedTree(packages: Entries): Node {
    Dir(map["anolis" := Dir(map["8" := Link("../el8")]), "el8" := Dir(packages)])
  }

  /** The alias is walked first and leads to a directory, which cannot be read as a file:
      the snapshot ends there, and holds none of the packages. */
  lemma AliasEndsSnapshot(outside: Reader, packages: Entries)
    ensures var tree := AliasedTree(packages);
      Copy(ReaderOf(tree, outside), [], tree, None) == Copied(Some(Dir(map["anolis" := Dir(map[])])), false)
  {
    var tree := AliasedTree(packages);
    var alias := tree.entries["anolis"];
    InOrderIs(tree.entries.Keys, ["anolis", "el8"]);
    InOrderIs(alias.entries.Keys, ["8"]);
    AliasInTree(outside, packages);
    CopyStops(ReaderOf(tree, outside), tree, alias);
  }

  lemma AliasInTree(outside: Reader, packages: Entries)
    ensures ReaderOf(AliasedTree(packages), outside)(["anolis", "8"]) == None
  {
    hide Split, ReaderOf;
    var tree := AliasedTree(packages);
    TargetNames("el8");
    NothingToSplit("el8", '/');
    assert "../" + "el8" == "../el8";
    GetShort(tree.entries, "anolis", "8", "");
    GetShort(tree.entries, "el8", "", "");
    AliasUnreadable(tree, outside, "anolis", "8", "../el8", ["el8"]);
  }

  lemma CopyStops(read: Reader, tree: Node, alias: Node)
    requires tree.Dir? && alias.Dir? && "anolis" in tree.entries && "el8" in tree.entries
    requires tree.entries["anolis"] == alias && alias.entries == map["8" := Link("../el8")]
    requires InOrder(tree.entries.Keys) == ["anolis", "el8"] && InOrder(alias.entries.Keys) == ["8"]
    requires read(["anolis", "8"]).None?
    ensures Copy(read, [], tree, None) == Copied(Some(Dir(map["anolis" := Dir(map[])])), false)
  {
    hide InOrder, Less;
    assert [] + ["anolis"] == ["anolis"] && ["anolis"] + ["8"] == ["anolis", "8"];
    assert ["8"][..0] == [] && ["anolis", "el8"][..1] == ["anolis"] && ["anolis"][..0] == [];
    assert CopyNamed(read, ["anolis"], alias, ["8"], map[]) == CopiedEntries(map[], false);
    assert Copy(read, ["anolis"], alias, None) == Copied(Some(Dir(map[])), false);
    assert CopyNamed(read, [], tree, ["anolis"], map[]) == CopiedEntries(map["anolis" := Dir(map[])], false);
    assert CopyNamed(read, [], tree, ["anolis", "el8"], map[]) == CopiedEntries(map["anolis" := Dir(map[])], false);
  }

  // ---- a tree as the build stage leaves it ----

  /** A tree holds the directories and links of a staging tree; other links are nowhere, and at the top only
      the exported key is added to them. */
  ghost predicate Depicts(tree: Node, dirs: set<Path>, links: map<Path, Path>) {
    && tree.Dir?
    && (forall p :: p in dirs ==> IsDir(tree, p))
    && (forall p :: p in links ==>
          Get(tree, p).Some? && Get(tree, p).value.Link? && Components(Get(tree, p).value.target) == links[p])
    && (forall p :: Get(tree, p).Some? && Get(tree, p).value.Link? ==> p in links)
    && (forall x :: x in tree.entries ==> [x] in dirs || [x] in links || x == "gpg.key")
  }

  /** What StageBuild leaves has no history of its own. */
  lemma StagedHasNoHistory(tree: Node, dirs: set<Path>, links: map<Path, Path>)
    requires Depicts(tree, dirs, links) && AllVisible(dirs, links)
    ensures ROLLBACK !in tree.entries
  {
    hide Get, Components;
    assert !Visible([ROLLBACK]);
  }

  /** What StageBuild leaves of an empty staging tree has its aliases and no other links. */
  lemma StagedHasAliases(tree: Node, dirs: set<Path>, links: map<Path, Path>, dvs: seq<string>, archs: seq<string>)
    requires Depicts(tree, dirs, links) && archs != []
    requires Linked(links, LinksOf(dvs, []), LinksOf(dvs, []).Keys) && OnlyLinked(map[], links, LinksOf(dvs, []).Keys)
    requires forall dv :: dv in dvs ==> Serves(dirs, links, dv, archs)
    ensures HasAliases(tree, dvs)
  {
    hide Get, Components, LinksOf, Resolve, Reaches;
    var aliases := LinksOf(dvs, []);
    forall k | k in aliases
      ensures Get(tree, Components(k)) == Some(Link(aliases[k]))
    {
      var n := Get(tree, Components(k)).value;
      assert Components(n.target) == Components(aliases[k]);
      SameComponents(n.target, aliases[k]);
    }
    forall dv | dv in dvs && Resolve(dv, []).Some?
      ensures IsDir(tree, Components(Resolve(dv, []).value.path))
    {
      var path := Components(Resolve(dv, []).value.path);
      assert archs[0] in archs;
      assert PackagesDir(Resolve(dv, []).value, archs[0]) == path + [archs[0], "Packages"];
      AboveIsDir(tree, path, [archs[0], "Packages"]);
    }
  }
}
