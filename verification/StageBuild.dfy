/** The build stage: packages for every product line and architecture, and aliases for the
    distributions that share a line (internal/pipeline/stage_build.go, internal/pipeline/symlink.go). */
module StageBuild {
  import opened Wrappers
  import opened SplitText
  import opened DistroMap
  import opened FileTree
  import opened Links

  /** The directory of the packages of a line for an architecture. */
  function PackagesDir(pl: ProductLine, arch: string): Path {
    Components(pl.path) + [arch, "Packages"]
  }

  /** Where a relative link leads: from its own directory, one name at a time. */
  function Follow(at: Path, target: Path): Path
    decreases |target|
  {
    if target == [] then at
    else if target[0] == ".." then Follow(if at == [] then [] else at[..|at| - 1], target[1..])
    else Follow(at + [target[0]], target[1..])
  }

  function LinkLeadsTo(link: Path, target: Path): Path
    requires link != []
  {
    Follow(link[..|link| - 1], target)
  }

  lemma {:induction false} FollowPlain(at: Path, target: Path)
    requires ".." !in target
    ensures Follow(at, target) == at + target
    decreases |target|
  {
    if target == [] {
      assert at + [] == at;
    } else {
      FollowPlain(at + [target[0]], target[1..]);
      assert at + [target[0]] + target[1..] == at + target;
    }
  }

  /** A path whose first name does not start with a dot. */
  predicate Visible(p: Path) {
    p == [] || (p[0] != "" && p[0][0] != '.')
  }

  /** Nothing hidden is at the top of a tree with these paths. */
  ghost predicate AllVisible(dirs: set<Path>, links: map<Path, Path>) {
    (forall p :: p in dirs ==> Visible(p)) && (forall p :: p in links ==> Visible(p))
  }

  /** The staging tree: its directories, and its links with their targets. */
  class Staging {
    var dirs: set<Path>
    var links: map<Path, Path>

    constructor ()
      ensures dirs == {[]} && links == map[]
    {
      dirs, links := {[]}, map[];
    }

    /** `os.MkdirAll` in a tree where no name on the way is a link. */
    method MkdirAll(path: Path)
      modifies this`dirs
      ensures dirs == old(dirs) + set i | 0 <= i <= |path| :: path[..i]
      ensures AllVisible(old(dirs), links) && Visible(path) ==> AllVisible(dirs, links)
    {
      dirs := dirs + set i | 0 <= i <= |path| :: path[..i];
    }

    /** `os.Remove`: a link, or a directory with nothing in it. */
    method Remove(path: Path)
      modifies this
      ensures links == old(links) - {path}
      ensures dirs ==
        if path in old(links) || Occupied(old(dirs), old(links), path) then old(dirs) else old(dirs) - {path}
    {
      if path in links {
        links := links - {path};
      } else {
        assert links - {path} == links;
        if !Occupied(dirs, links, path) {
          dirs := dirs - {path};
        }
      }
    }

    method Symlink(target: Path, path: Path) returns (ok: bool)
      modifies this`links
      ensures ok <==> path !in dirs && path !in old(links)
      ensures links == if ok then old(links)[path := target] else old(links)
    {
      ok := path !in dirs && path !in links;
      if ok {
        links := links[path := target];
      }
    }

    /** One alias: clears its place, makes its parent directory and the link. */
    method MakeAlias(linkPath: string, target: string, ghost packages: set<Path>) returns (ok: bool)
      requires |Components(linkPath)| == 2 && Visible(Components(linkPath))
      requires packages <= dirs && forall p :: p in packages ==> |p| >= 3
      modifies this
      ensures Settled(old(dirs), dirs, packages)
      ensures AllVisible(old(dirs), old(links)) ==> AllVisible(dirs, links)
      ensures ok ==> links == (old(links) - {Components(linkPath)})[Components(linkPath) := Components(target)]
      ensures Components(linkPath) !in old(dirs) ==> ok
      ensures Components(linkPath) in old(dirs) && Above(packages, Components(linkPath)) ==> !ok
    {
      hide Components, AllVisible, Occupied, Above;
      var fullPath := Components(linkPath);
      if Above(packages, fullPath) {
        AboveOccupies(dirs, links, packages, fullPath);
      }
      Remove(fullPath);
      StillVisible(old(dirs), old(links), dirs, links);
      assert Visible(fullPath[..|fullPath| - 1]);
      MkdirAll(fullPath[..|fullPath| - 1]);
      ghost var cleared := links;
      ok := Symlink(Components(target), fullPath);
      LinkVisible(dirs, cleared, fullPath, Components(target));
    }

    /** Makes the aliases; the order in which the map is walked does not matter. With every distribution
        resolved it can fail only when an alias path is a directory, and it fails when packages are below one. */
    method CreateSymlinks(dvs: seq<string>, customLines: seq<ProductLine>, ghost packages: set<Path>)
        returns (ok: bool, count: nat)
      requires packages <= dirs && forall p :: p in packages ==> |p| >= 3
      modifies this
      ensures Settled(old(dirs), dirs, packages)
      ensures AllVisible(old(dirs), old(links)) ==> AllVisible(dirs, links)
      ensures ok ==> count == |LinksOf(dvs, customLines)| && Resolvable(dvs, customLines)
      ensures ok ==> Linked(links, LinksOf(dvs, customLines), LinksOf(dvs, customLines).Keys)
      ensures ok ==> OnlyLinked(old(links), links, LinksOf(dvs, customLines).Keys)
      ensures Resolvable(dvs, customLines) && Clear(old(dirs), LinksOf(dvs, customLines).Keys) ==> ok
      ensures ok ==> !Meets(old(dirs), packages, LinksOf(dvs, customLines).Keys)
    {
      hide Resolve, LinksOf, PlainPair, Resolvable, Components, Linked, OnlyLinked, AllVisible, Visible, Settled,
        Clear, Meets, Above, Occupied;
      count := 0;
      NothingLinked(dirs, links, LinksOf(dvs, customLines), packages);
      var m := SymlinksForDistros(dvs, customLines);
      if m.None? { return false, 0; }
      var aliases := m.value;
      var todo := aliases.Keys;
      LinkShapes(dvs, customLines);
      assert aliases.Keys - todo == {};
      while todo != {}
        invariant todo <= aliases.Keys && count == |aliases.Keys - todo|
        invariant Settled(old(dirs), dirs, packages)
        invariant AllVisible(old(dirs), old(links)) ==> AllVisible(dirs, links)
        invariant Linked(links, aliases, aliases.Keys - todo) && OnlyLinked(old(links), links, aliases.Keys - todo)
        invariant !Meets(old(dirs), packages, aliases.Keys - todo)
        decreases |todo|
      {
        var linkPath :| linkPath in todo;
        ghost var before, dirsBefore, done := links, dirs, aliases.Keys - todo;
        SettledKeeps(old(dirs), dirs, packages);
        var made := MakeAlias(linkPath, aliases[linkPath], packages);
        StillSettled(old(dirs), dirsBefore, dirs, packages, linkPath, aliases.Keys, made);
        if !made { return false, count; }
        MoreLinked(before, links, aliases, done, linkPath);
        OnlyOneMore(old(links), before, links, done, linkPath, Components(aliases[linkPath]));
        OneMoreMissed(old(dirs), packages, done, linkPath);
        assert aliases.Keys - (todo - {linkPath}) == done + {linkPath};
        todo := todo - {linkPath};
        count := count + 1;
      }
      assert aliases.Keys - {} == aliases.Keys;
      return true, count;
    }
  }

  /** Something is below the path. */
  predicate Occupied(dirs: set<Path>, links: map<Path, Path>, path: Path) {
    exists p :: p in dirs + links.Keys && path < p
  }

  /** A packages directory is below the path. */
  ghost predicate Above(packages: set<Path>, path: Path) {
    exists p :: p in packages && path < p
  }

  lemma AboveOccupies(dirs: set<Path>, links: map<Path, Path>, packages: set<Path>, path: Path)
    requires packages <= dirs && Above(packages, path)
    ensures Occupied(dirs, links, path)
  {
    var p :| p in packages && path < p;
    assert p in dirs + links.Keys;
  }

  /** Making aliases adds directories at the top only, and removes none that leads to packages. */
  ghost predicate Settled(before: set<Path>, after: set<Path>, packages: set<Path>) {
    && packages <= after
    && (forall p :: p in after ==> p in before || |p| <= 1)
    && (forall p :: p in before && Above(packages, p) ==> p in after)
  }

  /** No alias path is a directory. */
  ghost predicate Clear(dirs: set<Path>, aliases: set<string>) {
    forall k :: k in aliases ==> Components(k) !in dirs
  }

  /** Some alias path is a directory with packages below it. */
  ghost predicate Meets(dirs: set<Path>, packages: set<Path>, aliases: set<string>) {
    exists k :: k in aliases && Components(k) in dirs && Above(packages, Components(k))
  }

  /** Every link was there before or is an alias. */
  ghost predicate OnlyLinked(before: map<Path, Path>, after: map<Path, Path>, aliases: set<string>) {
    forall p :: p in after ==>
      (p in before && after[p] == before[p]) || exists k :: k in aliases && Components(k) == p
  }

  lemma NothingLinked(dirs: set<Path>, links: map<Path, Path>, aliases: map<string, string>, packages: set<Path>)
    requires packages <= dirs
    ensures Linked(links, aliases, {}) && OnlyLinked(links, links, {}) && !Meets(dirs, packages, {})
    ensures Settled(dirs, dirs, packages)
  {
  }

  lemma SettledKeeps(before: set<Path>, dirs: set<Path>, packages: set<Path>)
    requires Settled(before, dirs, packages)
    ensures packages <= dirs
  {
  }

  /** One more alias was tried. */
  lemma StillSettled(before: set<Path>, dirs: set<Path>, after: set<Path>, packages: set<Path>, k: string,
                     aliases: set<string>, made: bool)
    requires Settled(before, dirs, packages) && Settled(dirs, after, packages)
    requires k in aliases && |Components(k)| == 2
    requires Components(k) !in dirs ==> made
    requires Components(k) in dirs && Above(packages, Components(k)) ==> !made
    ensures Settled(before, after, packages)
    ensures Clear(before, aliases) ==> made
    ensures made ==> !(Components(k) in before && Above(packages, Components(k)))
  {
    hide Above, Components;
  }

  lemma OneMoreMissed(dirs: set<Path>, packages: set<Path>, done: set<string>, k: string)
    requires !Meets(dirs, packages, done) && !(Components(k) in dirs && Above(packages, Components(k)))
    ensures !Meets(dirs, packages, done + {k})
  {
  }

  lemma OnlyOneMore(first: map<Path, Path>, before: map<Path, Path>, after: map<Path, Path>, done: set<string>,
                    k: string, target: Path)
    requires OnlyLinked(first, before, done) && after == (before - {Components(k)})[Components(k) := target]
    ensures OnlyLinked(first, after, done + {k})
  {
    hide Components;
    forall p | p in after
      ensures (p in first && after[p] == first[p]) || exists j :: j in done + {k} && Components(j) == p
    {
      if p == Components(k) {
        assert k in done + {k};
      } else if exists j :: j in done && Components(j) == p {
        var j :| j in done && Components(j) == p;
        assert j in done + {k};
      }
    }
  }

  lemma StillVisible(dirs: set<Path>, links: map<Path, Path>, fewer: set<Path>, less: map<Path, Path>)
    requires AllVisible(dirs, links) ==> fewer <= dirs && less.Keys <= links.Keys
    ensures AllVisible(dirs, links) ==> AllVisible(fewer, less)
  {
  }

  lemma LinkVisible(dirs: set<Path>, links: map<Path, Path>, p: Path, target: Path)
    requires Visible(p)
    ensures AllVisible(dirs, links) ==> AllVisible(dirs, links[p := target])
  {
  }

  /** These aliases are links with their targets. */
  ghost predicate Linked(links: map<Path, Path>, aliases: map<string, string>, done: set<string>) {
    forall k :: k in done ==> k in aliases && Components(k) in links && links[Components(k)] == Components(aliases[k])
  }

  lemma MoreLinked(before: map<Path, Path>, after: map<Path, Path>, aliases: map<string, string>,
                   done: set<string>, k: string)
    requires Linked(before, aliases, done) && k in aliases && k !in done
    requires after == (before - {Components(k)})[Components(k) := Components(aliases[k])]
    ensures Linked(after, aliases, done + {k})
  {
    forall j | j in done
      ensures Components(j) != Components(k)
    {
      SameComponents(j, k);
    }
  }

  lemma SameComponents(a: string, b: string)
    ensures Components(a) == Components(b) ==> a == b
  {
    JoinSplit(a, '/');
    JoinSplit(b, '/');
  }

  /** Every alias is a name in a directory of its own. */
  lemma {:induction false} LinkShapes(dvs: seq<string>, customLines: seq<ProductLine>)
    ensures forall k :: k in LinksOf(dvs, customLines) ==> |Components(k)| == 2 && Visible(Components(k))
  {
    hide Resolve, PlainPair, Split;
    if dvs != [] {
      var dv := dvs[|dvs| - 1];
      LinkShapes(dvs[..|dvs| - 1], customLines);
      if Resolve(dv, customLines).Some? {
        ResolvedIsPlain(dv, customLines);
        AliasNames(dv);
      }
    }
  }

  lemma AliasNames(dv: string)
    requires PlainPair(dv)
    ensures Components(LinkPath(dv)) == [ParseDistroVersion(dv).distro, ParseDistroVersion(dv).version]
    ensures Visible(Components(LinkPath(dv)))
  {
    var distro, version :| Simple(distro) && Simple(version) && dv == distro + ":" + version;
    ShapeOf(dv, distro, version);
    SplitAtSeparator(distro, version, '/');
    NothingToSplit(distro, '/');
    NothingToSplit(version, '/');
    assert distro + "/" + version == distro + ['/'] + version;
  }

  lemma TargetNames(path: string)
    ensures Components("../" + path) == [".."] + Components(path)
  {
    SplitAtSeparator("..", path, '/');
    NothingToSplit("..", '/');
    assert "../" + path == ".." + ['/'] + path;
  }

  lemma BuiltInPaths(l: ProductLine)
    requires l in DEFAULT_LINES
    ensures PlainPath(Components(l.path)) && Visible(Components(l.path)) && |Components(l.path)| <= 2
  {
    hide Split;
    if l.path == "openeuler/22" {
      OpenEuler("22");
      assert l.path == "openeuler/" + "22";
    } else if l.path == "openeuler/24" {
      OpenEuler("24");
      assert l.path == "openeuler/" + "24";
    } else {
      assert '/' !in l.path && l.path != "..";
      NothingToSplit(l.path, '/');
    }
  }

  lemma OpenEuler(version: string)
    requires '/' !in version
    ensures Components("openeuler/" + version) == ["openeuler", version]
  {
    SplitAtSeparator("openeuler", version, '/');
    NothingToSplit("openeuler", '/');
    NothingToSplit(version, '/');
    assert "openeuler/" + version == "openeuler" + ['/'] + version;
  }

  /** The path of a distribution is, or is a link that leads to, the directory of its line. */
  ghost predicate Reaches(links: map<Path, Path>, dv: string, pl: ProductLine) {
    var path := Components(LinkPath(dv));
    || path == Components(pl.path)
    || (path in links && path != [] && LinkLeadsTo(path, links[path]) == Components(pl.path))
  }

  lemma AliasReaches(links: map<Path, Path>, dvs: seq<string>, dv: string)
    requires dv in dvs && Resolve(dv, []).Some?
    requires Linked(links, LinksOf(dvs, []), LinksOf(dvs, []).Keys)
    ensures Reaches(links, dv, Resolve(dv, []).value)
  {
    hide Resolve, Components, LinkPath, LinksOf, LinkLeadsTo;
    var pl := Resolve(dv, []).value;
    AliasLeads(dv);
    if LinkPath(dv) != pl.path {
      AliasTarget(dvs, [], dv);
    }
  }

  lemma AliasLeads(dv: string)
    requires Resolve(dv, []).Some?
    ensures var pl, link := Resolve(dv, []).value, Components(LinkPath(dv));
      link != [] && LinkLeadsTo(link, Components("../" + pl.path)) == Components(pl.path)
  {
    var pl := Resolve(dv, []).value;
    InDefaults(dv);
    hide Resolve, Split, Follow, PlainPair;
    ResolvedIsPlain(dv, []);
    AliasNames(dv);
    TargetNames(pl.path);
    BuiltInPaths(pl);
    var distro, version := ParseDistroVersion(dv).distro, ParseDistroVersion(dv).version;
    assert [distro, version][..1] == [distro];
    BackAndDown(distro, Components(pl.path));
  }

  lemma InDefaults(dv: string)
    requires Resolve(dv, []).Some?
    ensures Resolve(dv, []).value in DEFAULT_LINES
  {
  }

  lemma BackAndDown(distro: string, path: Path)
    requires PlainPath(path)
    ensures Follow([distro], [".."] + path) == path
  {
    assert ([".."] + path)[1..] == path;
    assert [distro][..0] == [];
    FollowPlain([], path);
    assert [] + path == path;
  }

  // What the external calls answer, by place in the lists of lines and architectures.
  datatype Calls = Calls(download: nat -> bool, rpm: (nat, nat) -> bool, createrepo: (nat, nat) -> bool,
                         templates: bool)

  /** No call fails. */
  ghost predicate AllAnswer(calls: Calls) {
    && calls.templates && (forall j :: calls.download(j))
    && (forall i, j :: calls.rpm(i, j)) && (forall i, j :: calls.createrepo(i, j))
  }

  /** The packages directories of some lines for some architectures. */
  ghost function PackagesOf(lines: seq<ProductLine>, archs: seq<string>): set<Path> {
    set pl, arch | pl in lines && arch in archs :: PackagesDir(pl, arch)
  }

  /** The directories are those from before and those that lead to packages. */
  ghost predicate Made(before: set<Path>, after: set<Path>, packages: set<Path>) {
    forall p :: p in after <==> p in before || exists q :: q in packages && p <= q
  }

  lemma NothingMade(dirs: set<Path>, lines: seq<ProductLine>, archs: seq<string>)
    ensures Made(dirs, dirs, {}) && PackagesOf(lines[..0], archs) == {}
  {
  }

  lemma MadeGrows(before: set<Path>, dirs: set<Path>, after: set<Path>, packages: set<Path>, target: Path)
    requires Made(before, dirs, packages) && after == dirs + set i | 0 <= i <= |target| :: target[..i]
    ensures Made(before, after, packages + {target})
  {
    forall p
      ensures p in after <==> p in before || exists q :: q in packages + {target} && p <= q
    {
      if p <= target {
        assert p == target[..|p|] && target in packages + {target};
      }
      if exists q :: q in packages && p <= q {
        var q :| q in packages && p <= q;
        assert q in packages + {target};
      }
    }
  }

  lemma PackagesGrow(lines: seq<ProductLine>, archs: seq<string>, i: nat, j: nat)
    requires i < |lines|
    ensures PackagesOf([lines[i]], archs[..0]) == {}
    ensures j < |archs| ==>
      PackagesOf([lines[i]], archs[..j + 1]) == PackagesOf([lines[i]], archs[..j]) + {PackagesDir(lines[i], archs[j])}
    ensures PackagesOf(lines[..i + 1], archs) == PackagesOf(lines[..i], archs) + PackagesOf([lines[i]], archs)
    ensures archs[..|archs|] == archs && lines[..|lines|] == lines
  {
    hide PackagesDir;
    assert lines[..i + 1] == lines[..i] + [lines[i]];
    if j < |archs| {
      assert archs[..j + 1] == archs[..j] + [archs[j]];
    }
  }

  /** The packages and repository data of every line for every architecture. */
  method BuildLines(staging: Staging, lines: seq<ProductLine>, archs: seq<string>, calls: Calls)
      returns (ok: bool, rpmCount: nat, ghost packages: set<Path>)
    modifies staging`dirs
    ensures Made(old(staging.dirs), staging.dirs, packages) && packages <= PackagesOf(lines, archs)
    ensures ok ==> rpmCount == |lines| * |archs| && packages == PackagesOf(lines, archs)
    ensures AllAnswer(calls) ==> ok
  {
    hide PackagesDir, PackagesOf, Made;
    ok, rpmCount, packages := false, 0, {};
    NothingMade(staging.dirs, lines, archs);
    for i := 0 to |lines|
      invariant rpmCount == i * |archs|
      invariant Made(old(staging.dirs), staging.dirs, packages) && packages == PackagesOf(lines[..i], archs)
    {
      PackagesGrow(lines, archs, i, 0);
      PackagesOfSome(lines, archs, i, |archs|);
      for j := 0 to |archs|
        invariant rpmCount == i * |archs| + j
        invariant Made(old(staging.dirs), staging.dirs, packages)
        invariant packages == PackagesOf(lines[..i], archs) + PackagesOf([lines[i]], archs[..j])
      {
        var target := PackagesDir(lines[i], archs[j]);
        ghost var dirs := staging.dirs;
        staging.MkdirAll(target);
        MadeGrows(old(staging.dirs), dirs, staging.dirs, packages, target);
        PackagesGrow(lines, archs, i, j);
        PackagesOfSome(lines, archs, i, j + 1);
        packages := packages + {target};
        if !calls.rpm(i, j) { return; }
        rpmCount := rpmCount + 1;
      }
      for j := 0 to |archs| {
        if !calls.createrepo(i, j) { return; }
      }
      assert (i + 1) * |archs| == i * |archs| + |archs|;
    }
    PackagesOfAll(lines, archs);
    ok := true;
  }

  lemma PackagesOfSome(lines: seq<ProductLine>, archs: seq<string>, i: nat, j: nat)
    requires i < |lines| && j <= |archs|
    ensures PackagesOf(lines[..i], archs) + PackagesOf([lines[i]], archs[..j]) <= PackagesOf(lines, archs)
  {
    hide PackagesDir;
  }

  lemma PackagesOfAll(lines: seq<ProductLine>, archs: seq<string>)
    ensures PackagesOf(lines[..|lines|], archs) == PackagesOf(lines, archs)
  {
    assert lines[..|lines|] == lines;
  }

  /** An alias path lies above the packages of some line for some architecture. */
  ghost predicate Collides(dvs: seq<string>, archs: seq<string>) {
    exists k :: k in LinksOf(dvs, []) && Above(PackagesOf(FirstById(LinesOf(dvs, [])), archs), Components(k))
  }

  /** Builds every line for every architecture, then the aliases and the templates. From an empty staging tree
      and with no failing call it fails only when a distribution does not resolve, or an alias path lies above
      packages. */
  method StageBuild(staging: Staging, dvs: seq<string>, archs: seq<string>, calls: Calls)
      returns (ok: bool, rpmCount: nat, symlinkCount: nat)
    modifies staging
    ensures AllVisible(old(staging.dirs), old(staging.links)) ==> AllVisible(staging.dirs, staging.links)
    ensures ok ==> Resolvable(dvs, [])
    ensures ok ==> rpmCount == |FirstById(LinesOf(dvs, []))| * |archs| && symlinkCount == |LinksOf(dvs, [])|
    ensures ok ==> Linked(staging.links, LinksOf(dvs, []), LinksOf(dvs, []).Keys)
    ensures ok ==> OnlyLinked(old(staging.links), staging.links, LinksOf(dvs, []).Keys)
    ensures ok ==> forall dv :: dv in dvs ==> Serves(staging.dirs, staging.links, dv, archs)
    ensures old(staging.dirs) == {[]} && AllAnswer(calls) ==> (ok <==> Resolvable(dvs, []) && !Collides(dvs, archs))
  {
    hide Resolve, FirstById, LinesOf, LinksOf, Linked, OnlyLinked, PackagesOf, AllVisible, Visible, Made, Settled,
      Clear, Meets, Collides, Serves;
    ok, rpmCount, symlinkCount := false, 0, 0;
    ghost var wasEmpty := old(staging.dirs) == {[]};
    var resolved := ResolveAll(dvs, []);
    if resolved.None? { return; }
    var lines := resolved.value;
    for j := 0 to |archs| {
      if !calls.download(j) { return; }
    }
    var built, rpms, packages := BuildLines(staging, lines, archs, calls);
    rpmCount := rpms;
    MadeVisible(dvs, archs, staging.dirs, packages, old(staging.dirs), staging.links);
    if !built { return; }
    MadeHasPackages(old(staging.dirs), staging.dirs, packages, lines, archs);
    if wasEmpty { CollidesWhenMet(dvs, archs, staging.dirs); }
    ghost var dirs := staging.dirs;
    var made, count := staging.CreateSymlinks(dvs, [], packages);
    symlinkCount := count;
    if !made { return; }
    SettledKeeps(dirs, staging.dirs, packages);
    TemplatesVisible();
    staging.MkdirAll(["templates"]);
    if !calls.templates { return; }
    EveryDistroIsServed(staging.dirs, staging.links, dvs, archs);
    ok := true;
  }

  /** The path of a distribution is, or leads to, the directory of its line, which has packages for every
      architecture. */
  ghost predicate Serves(dirs: set<Path>, links: map<Path, Path>, dv: string, archs: seq<string>) {
    var pl := Resolve(dv, []);
    pl.Some? && Reaches(links, dv, pl.value) && forall arch :: arch in archs ==> PackagesDir(pl.value, arch) in dirs
  }

  /** Making packages directories leaves nothing hidden at the top. */
  lemma MadeVisible(dvs: seq<string>, archs: seq<string>, dirs: set<Path>, packages: set<Path>, before: set<Path>,
                    links: map<Path, Path>)
    requires Made(before, dirs, packages) && packages <= PackagesOf(FirstById(LinesOf(dvs, [])), archs)
    ensures AllVisible(before, links) ==> AllVisible(dirs, links)
  {
    hide FirstById, LinesOf, PackagesDir;
    forall p | p in dirs && p !in before
      ensures Visible(p)
    {
      var q :| q in packages && p <= q;
      assert exists pl, arch :: pl in FirstById(LinesOf(dvs, [])) && arch in archs && q == PackagesDir(pl, arch);
      var pl, arch :| pl in FirstById(LinesOf(dvs, [])) && arch in archs && q == PackagesDir(pl, arch);
      PackagesVisible(dvs, pl, arch);
    }
  }

  lemma MadeHasPackages(before: set<Path>, dirs: set<Path>, packages: set<Path>, lines: seq<ProductLine>,
                        archs: seq<string>)
    requires Made(before, dirs, packages) && packages == PackagesOf(lines, archs)
    ensures packages <= dirs && forall p :: p in packages ==> |p| >= 3
  {
    forall p | p in packages
      ensures p in dirs
    {
      assert p <= p;
    }
  }

  lemma CollidesWhenMet(dvs: seq<string>, archs: seq<string>, dirs: set<Path>)
    requires Made({[]}, dirs, PackagesOf(FirstById(LinesOf(dvs, [])), archs))
    ensures var packages, aliases := PackagesOf(FirstById(LinesOf(dvs, [])), archs), LinksOf(dvs, []).Keys;
      && (Collides(dvs, archs) ==> Meets(dirs, packages, aliases))
      && (!Collides(dvs, archs) ==> Clear(dirs, aliases))
  {
    hide FirstById, LinesOf, LinksOf, PackagesDir, Components, PackagesOf;
    var packages, aliases := PackagesOf(FirstById(LinesOf(dvs, [])), archs), LinksOf(dvs, []).Keys;
    LinkShapes(dvs, []);
    AllDeep(FirstById(LinesOf(dvs, [])), archs);
    forall k | k in aliases
      ensures Components(k) in dirs <==> Above(packages, Components(k))
    {
      if Components(k) in dirs {
        assert Components(k) != [];
        var q :| q in packages && Components(k) <= q;
        assert |q| >= 3 && |Components(k)| == 2;
      }
    }
  }

  lemma AllDeep(lines: seq<ProductLine>, archs: seq<string>)
    ensures forall p :: p in PackagesOf(lines, archs) ==> |p| >= 3
  {
  }

  lemma EveryDistroIsServed(dirs: set<Path>, links: map<Path, Path>, dvs: seq<string>, archs: seq<string>)
    requires Resolvable(dvs, [])
    requires PackagesOf(FirstById(LinesOf(dvs, [])), archs) <= dirs
    requires Linked(links, LinksOf(dvs, []), LinksOf(dvs, []).Keys)
    ensures forall dv :: dv in dvs ==> Serves(dirs, links, dv, archs)
  {
    hide Resolve, FirstById, LinesOf, LinksOf, Linked, Reaches, PackagesDir;
    forall dv | dv in dvs
      ensures Serves(dirs, links, dv, archs)
    {
      AliasReaches(links, dvs, dv);
      LineIsBuilt(dvs, [], dv);
    }
  }

  lemma TemplatesVisible()
    ensures Visible(["templates"])
  {
  }

  lemma PackagesVisible(dvs: seq<string>, pl: ProductLine, arch: string)
    requires pl in FirstById(LinesOf(dvs, []))
    ensures Visible(PackagesDir(pl, arch))
  {
    hide FirstById, LinesOf, Components;
    FirstAreLines(LinesOf(dvs, []));
    LinesOfMeans(dvs, []);
    assert LineFor(pl.id, []) == Some(pl);
    BuiltInPaths(pl);
  }

  /** An alias lies above packages exactly when it is the directory of a line, or that of an architecture in it. */
  lemma CollidesMeans(dvs: seq<string>, archs: seq<string>)
    requires forall arch :: arch in archs ==> '/' !in arch
    ensures Collides(dvs, archs) <==>
      exists k, pl, arch :: k in LinksOf(dvs, []) && pl in FirstById(LinesOf(dvs, [])) && arch in archs &&
        IsDirectoryOf(k, pl, arch)
  {
    hide FirstById, LinesOf, LinksOf, PackagesDir, PackagesOf, Above, Components, LineFor, IsDirectoryOf;
    LinkShapes(dvs, []);
    FirstAreLines(LinesOf(dvs, []));
    LinesOfMeans(dvs, []);
    var lines := FirstById(LinesOf(dvs, []));
    forall k, pl, arch | k in LinksOf(dvs, []) && pl in lines && arch in archs
      ensures Components(k) < PackagesDir(pl, arch) <==> IsDirectoryOf(k, pl, arch)
    {
      LineIsBuiltIn(pl);
      AboveMeans(k, pl, arch);
    }
    forall k
      ensures Above(PackagesOf(lines, archs), Components(k)) <==>
        exists pl, arch :: pl in lines && arch in archs && Components(k) < PackagesDir(pl, arch)
    {
      AboveSome(lines, archs, Components(k));
    }
  }

  lemma AboveSome(lines: seq<ProductLine>, archs: seq<string>, path: Path)
    ensures Above(PackagesOf(lines, archs), path) <==>
      exists pl, arch :: pl in lines && arch in archs && path < PackagesDir(pl, arch)
  {
    hide PackagesDir;
    if pl, arch :| pl in lines && arch in archs && path < PackagesDir(pl, arch) {
      assert PackagesDir(pl, arch) in PackagesOf(lines, archs);
    }
  }

  predicate IsDirectoryOf(k: string, pl: ProductLine, arch: string) {
    k == pl.path || k == pl.path + "/" + arch
  }

  lemma LineIsBuiltIn(pl: ProductLine)
    requires LineFor(pl.id, []) == Some(pl)
    ensures pl in DEFAULT_LINES
  {
  }

  lemma AboveMeans(k: string, pl: ProductLine, arch: string)
    requires |Components(k)| == 2 && '/' !in arch && pl in DEFAULT_LINES
    ensures Components(k) < PackagesDir(pl, arch) <==> IsDirectoryOf(k, pl, arch)
  {
    hide Split;
    BuiltInPaths(pl);
    SplitAtSeparator(pl.path, arch, '/');
    NothingToSplit(arch, '/');
    assert pl.path + "/" + arch == pl.path + ['/'] + arch;
    var path, below := Components(pl.path), pl.path + "/" + arch;
    assert Components(below) == path + [arch];
    SameComponents(k, pl.path);
    SameComponents(k, below);
    assert PackagesDir(pl, arch)[..2] == if |path| == 2 then path else path + [arch];
  }
}
