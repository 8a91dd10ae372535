/** Publishing a staging tree (internal/pipeline/stage_publish.go). */
module Publish {
  import opened Wrappers
  import opened Names
  import opened FileTree
  import opened FileSystem
  import opened Snapshots

  // What reading through the links of the two copied trees gives.
  datatype Readers = Readers(repoRpm: Reader, backup: Reader)

  function StagingName(product: string): string { product + ".staging" }

  predicate HasHistory(prod: Node) {
    prod.Dir? && ROLLBACK in prod.entries && prod.entries[ROLLBACK].Dir?
  }

  /** The snapshots beside a production tree. */
  function History(prod: Node): Entries {
    if HasHistory(prod) then prod.entries[ROLLBACK].entries else map[]
  }

  /** The snapshots with a copy of the production tree, without its own snapshots, under a new name. */
  ghost function Recorded(read: Reader, history: Entries, prod: Node, timestamp: string): Entries {
    Updated(history, timestamp, Copy(read, [], Without(prod, {ROLLBACK}), Lookup(history, timestamp)).node)
  }

  /** The snapshots a new one is added to: those of production, which move to staging when nothing is there;
      None when the place in staging is taken by something that is not a directory. */
  function StartHistory(staging: Entries, prod: Node): Option<Entries> {
    if ROLLBACK !in staging then Some(History(prod))
    else if staging[ROLLBACK].Dir? then Some(staging[ROLLBACK].entries)
    else None
  }

  /** The staging tree with the snapshots and a new one of production. */
  ghost function BackedUp(read: Reader, staging: Entries, prod: Node, timestamp: string): Entries {
    var history := StartHistory(staging, prod);
    if history.None? then staging
    else staging[ROLLBACK := Dir(Recorded(read, history.value, prod, timestamp))]
  }

  /** The staging tree with the repository packages of production copied into it. */
  ghost function Preserved(read: Reader, prod: Option<Node>, staging: Entries): Entries {
    var rpms := Child(prod, REPO_RPM);
    if rpms.Some? && rpms.value.Dir? then
      Updated(staging, REPO_RPM, Copy(read, [], rpms.value, Lookup(staging, REPO_RPM)).node)
    else staging
  }

  lemma PreservedFacts(read: Reader, prod: Option<Node>, staging: Entries)
    ensures prod.None? ==> Preserved(read, prod, staging) == staging
    ensures ROLLBACK in Preserved(read, prod, staging) <==> ROLLBACK in staging
  {
    hide Copy;
  }

  function KeepCount(rollbackKeep: int): nat {
    if rollbackKeep <= 0 then 3 else rollbackKeep
  }

  ghost function WithCleanRpms(es: Entries, oldestFirst: ByAge): Entries
  {
    if REPO_RPM in es && es[REPO_RPM].Dir? then
      es[REPO_RPM := Dir(CleanedRpms(es[REPO_RPM].entries, oldestFirst))]
    else es
  }

  /** The staging tree with its preserved packages and, if there was production, its history. */
  ghost function Merged(read: Readers, prod: Option<Node>, staging: Entries, timestamp: string): Entries {
    var kept := Preserved(read.repoRpm, prod, staging);
    if prod.None? then kept else BackedUp(read.backup, kept, prod.value, timestamp)
  }

  ghost function WithPrunedHistory(es: Entries, keep: nat): Entries {
    if ROLLBACK in es && es[ROLLBACK].Dir? then es[ROLLBACK := Dir(Pruned(es[ROLLBACK].entries, keep))] else es
  }

  /** Only the snapshots of a tree are pruned; every other entry stays as it was. */
  ghost predicate OnlyHistoryPruned(es: Entries, after: Entries, keep: nat) {
    && (forall x :: x != ROLLBACK ==> Lookup(after, x) == Lookup(es, x))
    && Lookup(after, ROLLBACK) ==
         if HasHistory(Dir(es)) then Some(Dir(Pruned(History(Dir(es)), keep))) else Lookup(es, ROLLBACK)
  }

  lemma PrunedHistoryMeans(es: Entries, keep: nat)
    ensures OnlyHistoryPruned(es, WithPrunedHistory(es, keep), keep)
  {
    hide Pruned;
  }

  /** The production tree that publishing makes of the old one and the staging tree. */
  ghost function Published(read: Readers, oldestFirst: ByAge, prod: Option<Node>, staging: Entries,
                           timestamp: string, rollbackKeep: int): Entries
  {
    WithCleanRpms(WithPrunedHistory(Merged(read, prod, staging, timestamp), KeepCount(rollbackKeep)), oldestFirst)
  }

  /** The entries of the repository root that a publish of a product uses. */
  function Places(product: string): set<string> { {product, StagingName(product)} }

  /** `copyDir` and `copyDirExcluding` between two paths of the disk. */
  method CopyDir(disk: Disk, read: Reader, src: Place, dst: Place, exclude: set<string>)
    requires disk.Valid() && Get(disk.root, src).Some? && IsDir(disk.root, dst[..|dst| - 1])
    modifies disk
    ensures disk.Valid() && disk.ops == old(disk.ops) + [CopyTo(read, src, dst, exclude)]
    ensures disk.root == WithCopy(old(disk.root), read, src, dst, exclude)
  {
    hide Copy, Get, Put, Without;
    ghost var before := disk.root;
    var n := Get(disk.root, src).value;
    var r: Copied;
    if n.Dir? {
      WithoutDir(n, exclude);
      r := CopyTop(read, [], n, Get(disk.root, dst), exclude);
    } else {
      WithoutDir(n, exclude);
      r := CopyTree(read, [], n, Get(disk.root, dst));
    }
    if r.node.Some? {
      PutDir(disk.root, dst, r.node.value);
      disk.root := Put(disk.root, dst, r.node.value);
    }
    disk.Record(before, CopyTo(read, src, dst, exclude));
  }

  lemma WithoutDir(n: Node, names: set<string>)
    ensures Without(n, names) == if n.Dir? then Dir(n.entries - names) else n
  {
  }

  lemma PutDir(n: Node, p: Place, v: Node)
    requires n.Dir?
    ensures Put(n, p, v).Dir?
  {
  }

  /** The staging tree of a product is there. */
  predicate HasStaging(m: Entries, product: string) {
    StagingName(product) in m && m[StagingName(product)].Dir?
  }

  /** Copies the preserved directory of production into staging. */
  method Preserve(disk: Disk, product: string, read: Reader)
    requires disk.Valid() && HasStaging(disk.Tree(), product)
    modifies disk
    ensures disk.Valid() && Adds(old(disk.ops), disk.ops, Places(product))
    ensures var m, s := old(disk.Tree()), StagingName(product);
      disk.Tree() == m[s := Dir(Preserved(read, Lookup(m, product), m[s].entries))]
  {
    hide Get, Put, Copy, Disk.Logged;
    ghost var m := disk.Tree();
    var s := StagingName(product);
    GetShort(m, product, REPO_RPM, "");
    GetShort(m, s, REPO_RPM, "");
    var rpms := Get(disk.root, [product, REPO_RPM]);
    if rpms.Some? && rpms.value.Dir? {
      assert [s, REPO_RPM][..1] == [s];
      assert rpms.value.entries - {} == rpms.value.entries;
      CopyDir(disk, read, [product, REPO_RPM], [s, REPO_RPM], {});
      ghost var r := Copy(read, [], rpms.value, Lookup(m[s].entries, REPO_RPM));
      if r.node.Some? {
        PutShort(m, s, REPO_RPM, r.node.value);
      }
    }
  }

  /** Moves the snapshots of production into staging, or makes an empty directory for them;
      does nothing when staging has an entry of that name. */
  method MoveHistory(disk: Disk, product: string)
    requires disk.Valid() && product in disk.Tree() && HasStaging(disk.Tree(), product)
    modifies disk
    ensures disk.Valid() && Adds(old(disk.ops), disk.ops, Places(product))
    ensures disk.Tree() ==
      var m, s := old(disk.Tree()), StagingName(product);
      var prod := m[product];
      if ROLLBACK in m[s].entries then m
      else
        m[product := if HasHistory(prod) then Without(prod, {ROLLBACK}) else prod]
         [s := Dir(m[s].entries[ROLLBACK := Dir(History(prod))])]
  {
    hide Get, Put, Cut, Disk.Logged;
    ghost var m := disk.Tree();
    var s := StagingName(product);
    GetShort(m, product, ROLLBACK, "");
    GetShort(m, s, ROLLBACK, "");
    assert [s, ROLLBACK][..1] == [s];
    assert product != s by { assert |product| != |s|; }
    if IsDir(disk.root, [product, ROLLBACK]) {
      assert [product, ROLLBACK][0] != [s, ROLLBACK][0];
      var ok := disk.Rename([product, ROLLBACK], [s, ROLLBACK]);
      CutShort(m, product, ROLLBACK);
      PutShort(m[product := Without(m[product], {ROLLBACK})], s, ROLLBACK, m[product].entries[ROLLBACK]);
      GetShort(m[product := Without(m[product], {ROLLBACK})]
                [s := Dir(m[s].entries[ROLLBACK := m[product].entries[ROLLBACK]])], s, ROLLBACK, "");
    } else {
      assert m[product := m[product]] == m;
      PutShort(m, s, ROLLBACK, Dir(map[]));
    }
    disk.Mkdir([s, ROLLBACK]);
  }

  /** The tree after MoveHistory, when the place for the snapshots in staging is a directory or free. */
  lemma Moved(m: Entries, product: string, m1: Entries)
    requires product in m && HasStaging(m, product)
    requires var s, prod := StagingName(product), m[product];
      m1 == if ROLLBACK in m[s].entries then m else
        m[product := if HasHistory(prod) then Without(prod, {ROLLBACK}) else prod]
         [s := Dir(m[s].entries[ROLLBACK := Dir(History(prod))])]
    ensures var s, start := StagingName(product), StartHistory(m[StagingName(product)].entries, m[product]);
      && product in m1 && s in m1 && m1[s].Dir? && product != s
      && Without(m1[product], {ROLLBACK}) == Without(m[product], {ROLLBACK})
      && m1 - {product} - {s} == m - {product} - {s}
      && (start.Some? <==> ROLLBACK in m1[s].entries && m1[s].entries[ROLLBACK].Dir?)
      && (start.Some? ==> m1[s].entries == m[s].entries[ROLLBACK := Dir(start.value)])
      && (start.None? ==> m1 == m)
  {
    var s := StagingName(product);
    assert product != s by { assert |product| != |s|; }
    var prod := m[product];
    if HasHistory(prod) {
      assert prod.entries - {ROLLBACK} - {ROLLBACK} == prod.entries - {ROLLBACK};
    }
    if ROLLBACK in m[s].entries && m[s].entries[ROLLBACK].Dir? {
      assert m[s].entries[ROLLBACK := m[s].entries[ROLLBACK]] == m[s].entries;
    }
  }

  /** Records a snapshot of production in staging and removes production. */
  method BackUp(disk: Disk, product: string, timestamp: string, read: Reader)
    requires disk.Valid() && product in disk.Tree() && HasStaging(disk.Tree(), product)
    modifies disk
    ensures disk.Valid() && Adds(old(disk.ops), disk.ops, Places(product))
    ensures var m, s := old(disk.Tree()), StagingName(product);
      disk.Tree() == (m - {product})[s := Dir(BackedUp(read, m[s].entries, m[product], timestamp))]
  {
    hide Get, Put, Cut, Copy, Without, StartHistory, History, Disk.Logged;
    ghost var m := disk.Tree();
    var s := StagingName(product);
    MoveHistory(disk, product);
    ghost var m1 := disk.Tree();
    Moved(m, product, m1);
    GetShort(m1, product, "", "");
    GetShort(m1, s, ROLLBACK, timestamp);
    assert [s, ROLLBACK, timestamp][..2] == [s, ROLLBACK];
    if IsDir(disk.root, [s, ROLLBACK]) {   // otherwise the walk fails at its first directory
      CopyDir(disk, read, [product], [s, ROLLBACK, timestamp], {ROLLBACK});
      SnapshotPut(m, m1, product, timestamp, read);
    }
    ghost var m2 := m1[s := Dir(BackedUp(read, m[s].entries, m[product], timestamp))];
    assert m1[s := m1[s]] == m1;
    CutShort(m2, product, "");
    disk.RemoveAll([product]);
    assert m2 - {product} == (m - {product})[s := m2[s]] by {
      assert (m1 - {product} - {s})[s := m2[s]] == m2 - {product};
    }
  }

  /** The copy of production put into the history of staging. */
  lemma SnapshotPut(m: Entries, m1: Entries, product: string, timestamp: string, read: Reader)
    requires product in m && HasStaging(m, product)
    requires var s, start := StagingName(product), StartHistory(m[StagingName(product)].entries, m[product]);
      && product in m1 && s in m1 && m1[s].Dir? && start.Some?
      && Without(m1[product], {ROLLBACK}) == Without(m[product], {ROLLBACK})
      && m1[s].entries == m[s].entries[ROLLBACK := Dir(start.value)]
    ensures var s, start := StagingName(product), StartHistory(m[StagingName(product)].entries, m[product]);
      var r := Copy(read, [], Without(m1[product], {ROLLBACK}), Lookup(start.value, timestamp));
      var m2 := m1[s := Dir(BackedUp(read, m[s].entries, m[product], timestamp))];
      && (r.node.Some? ==> Put(Dir(m1), [s, ROLLBACK, timestamp], r.node.value) == Dir(m2))
      && (r.node.None? ==> m1 == m2)
  {
    hide Get, Put, Cut, Copy, Without, StartHistory;
    var s, start := StagingName(product), StartHistory(m[StagingName(product)].entries, m[product]);
    var r := Copy(read, [], Without(m1[product], {ROLLBACK}), Lookup(start.value, timestamp));
    var recorded := Dir(Recorded(read, start.value, m[product], timestamp));
    if r.node.Some? {
      PutLong(m1, s, ROLLBACK, timestamp, r.node.value);
      assert m1[s].entries[ROLLBACK := recorded] == m[s].entries[ROLLBACK := recorded];
    }
  }

  /** Removes the oldest snapshots, in name order. */
  method CleanOldBackups(disk: Disk, product: string, keep: nat)
    requires disk.Valid() && product in disk.Tree() && disk.Tree()[product].Dir?
    modifies disk
    ensures disk.Valid() && Adds(old(disk.ops), disk.ops, Places(product))
    ensures var m := old(disk.Tree());
      disk.Tree() == m[product := Dir(WithPrunedHistory(m[product].entries, keep))]
    ensures product in disk.Tree() && disk.Tree()[product].Dir?
    ensures OnlyHistoryPruned(old(disk.Tree())[product].entries, disk.Tree()[product].entries, keep)
  {
    hide Get, Cut, Less, Disk.Logged, OnlyHistoryPruned;
    ghost var m := disk.Tree();
    PrunedHistoryMeans(m[product].entries, keep);
    GetShort(m, product, ROLLBACK, "");
    ghost var prod := m[product].entries;
    assert m[product := Dir(prod)] == m;
    var d := Get(disk.root, [product, ROLLBACK]);
    if d.None? || !d.value.Dir? { return; }
    var es := d.value.entries;
    assert prod[ROLLBACK := Dir(es)] == prod;
    var names := Sort(DirNames(es));
    PrunedIs(es, keep, names);
    if |names| <= keep { return; }
    assert es - Elements(names[..0]) == es;
    for i := 0 to |names| - keep
      invariant disk.Valid() && Adds(old(disk.ops), disk.ops, Places(product))
      invariant disk.root == Left(m, product, ROLLBACK, es - Elements(names[..i]))
    {
      RemoveNext(m, product, ROLLBACK, es, names, i);
      disk.RemoveAll([product, ROLLBACK, names[i]]);
    }
  }

  /** The tree with the directory d of a product left with these entries. */
  function Left(m: Entries, product: string, d: string, es: Entries): Node
    requires product in m && m[product].Dir?
  {
    Dir(m[product := Dir(m[product].entries[d := Dir(es)])])
  }

  lemma RemoveNext(m: Entries, product: string, d: string, es: Entries, names: seq<string>, i: nat)
    requires product in m && m[product].Dir? && i < |names|
    ensures Cut(Left(m, product, d, es - Elements(names[..i])), [product, d, names[i]]) ==
      Left(m, product, d, es - Elements(names[..i + 1]))
  {
    hide Cut;
    var prod, left := m[product].entries, es - Elements(names[..i]);
    var now := m[product := Dir(prod[d := Dir(left)])];
    CutLong(now, product, d, names[i]);
    ElementsGrow(names, i);
    var next := left - {names[i]};
    assert next == es - Elements(names[..i + 1]);
    assert prod[d := Dir(left)][d := Dir(next)] == prod[d := Dir(next)];
    assert now[product := Dir(prod[d := Dir(next)])] == m[product := Dir(prod[d := Dir(next)])];
  }

  lemma ElementsGrow(names: seq<string>, i: nat)
    requires i < |names|
    ensures Elements(names[..i + 1]) == Elements(names[..i]) + {names[i]}
  {
    assert names[..i + 1] == names[..i] + [names[i]];
  }

  lemma PrunedIs(es: Entries, keep: nat, names: seq<string>)
    requires names == InOrder(DirNames(es))
    ensures |names| <= keep ==> Pruned(es, keep) == es
    ensures |names| > keep ==> Pruned(es, keep) == es - Elements(names[..|names| - keep])
  {
    hide Less, Newer;
    var gone := if |names| <= keep then 0 else |names| - keep;
    assert names[..0] == [];
    forall x | x in es
      ensures x in Pruned(es, keep) <==> x !in names[..gone]
    {
      GoneByPlace(es, keep, names, gone, x);
    }
  }

  lemma GoneByPlace(es: Entries, keep: nat, names: seq<string>, gone: nat, x: string)
    requires names == InOrder(DirNames(es)) && x in es
    requires gone == if |names| <= keep then 0 else |names| - keep
    ensures x in Pruned(es, keep) <==> x !in names[..gone]
  {
    hide Less, Newer;
    if x in DirNames(es) {
      KeptByPlace(es, keep, x);
      OneSide(names, gone, x);
    } else {
      assert x !in names;
    }
  }

  /** Removes all but the three newest repository packages. */
  method CleanOldRepoRpms(disk: Disk, product: string, oldestFirst: ByAge)
    requires disk.Valid() && product in disk.Tree() && disk.Tree()[product].Dir? && Lists(oldestFirst)
    modifies disk
    ensures disk.Valid() && Adds(old(disk.ops), disk.ops, Places(product))
    ensures var m := old(disk.Tree());
      disk.Tree() == m[product := Dir(WithCleanRpms(m[product].entries, oldestFirst))]
  {
    hide Get, Cut, Disk.Logged;
    ghost var m := disk.Tree();
    GetShort(m, product, REPO_RPM, "");
    ghost var prod := m[product].entries;
    assert m[product := Dir(prod)] == m;
    var d := Get(disk.root, [product, REPO_RPM]);
    if d.None? || !d.value.Dir? { return; }
    var es := d.value.entries;
    assert prod[REPO_RPM := Dir(es)] == prod;
    var rpms := Rpms(es);
    if |rpms| <= 3 { return; }
    var names := oldestFirst(rpms);
    assert es - Elements(names[..0]) == es;
    for i := 0 to |rpms| - 3
      invariant disk.Valid() && Adds(old(disk.ops), disk.ops, Places(product))
      invariant disk.root == Left(m, product, REPO_RPM, es - Elements(names[..i]))
    {
      RemoveNext(m, product, REPO_RPM, es, names, i);
      disk.RemoveAll([product, REPO_RPM, names[i]]);
    }
  }

  /** The rename that makes a complete staging tree the production tree. */
  method Swap(disk: Disk, product: string) returns (ok: bool)
    requires disk.Valid() && HasStaging(disk.Tree(), product) && product !in disk.Tree()
    modifies disk
    ensures disk.Valid() && Adds(old(disk.ops), disk.ops, Places(product))
    ensures var m, s := old(disk.Tree()), StagingName(product);
      ok && disk.Tree() == (m - {s})[product := m[s]]
  {
    hide Get, Put, Cut, Disk.Logged;
    ghost var m := disk.Tree();
    var s := StagingName(product);
    assert product != s by { assert |product| != |s|; }
    GetShort(m, product, "", "");
    GetShort(m, s, "", "");
    assert [product][..0] == [];
    assert [s][0] != [product][0];
    ok := disk.Rename([s], [product]);
    CutShort(m, s, "");
    PutShort(m - {s}, product, "", m[s]);
  }

  /** Swaps staging for production: production becomes Published, staging is gone, nothing else changes. */
  method StagePublish(disk: Disk, product: string, timestamp: string, rollbackKeep: int,
                      read: Readers, oldestFirst: ByAge) returns (ok: bool)
    requires disk.Valid() && HasStaging(disk.Tree(), product) && Lists(oldestFirst)
    modifies disk
    ensures ok && disk.Valid() && Adds(old(disk.ops), disk.ops, Places(product))
    ensures var m, s := old(disk.Tree()), StagingName(product);
      disk.Tree() == (m - {s})[product := Dir(
        Published(read, oldestFirst, Lookup(m, product), m[s].entries, timestamp, rollbackKeep))]
    ensures var m, s, after := old(disk.Tree()), StagingName(product), disk.Tree();
      && s !in after && product in after && after[product].Dir?
      && (forall x :: x != s && x != product ==> Lookup(after, x) == Lookup(m, x))
      && (forall x :: x != ROLLBACK && x != REPO_RPM ==>
            Lookup(after[product].entries, x) == Lookup(m[s].entries, x))
  {
    hide Get, Put, Cut, Preserved, WithCleanRpms, WithPrunedHistory, Published, BackedUp, Adds, Disk.Logged;
    ghost var m := disk.Tree();
    ghost var s := StagingName(product);
    ghost var merged := Merged(read, Lookup(m, product), m[s].entries, timestamp);
    var keep := if rollbackKeep <= 0 then 3 else rollbackKeep;
    PublishedIs(read, oldestFirst, Lookup(m, product), m[s].entries, timestamp, rollbackKeep);
    MergeStaging(disk, product, timestamp, read);
    ghost var ops1 := disk.ops;
    ok := Swap(disk, product);
    AddsTwice(old(disk.ops), ops1, disk.ops, Places(product));
    assert ((m - {product})[s := Dir(merged)] - {s})[product := Dir(merged)] == (m - {s})[product := Dir(merged)];
    ghost var ops2 := disk.ops;
    CleanOldBackups(disk, product, keep);
    AddsTwice(old(disk.ops), ops2, disk.ops, Places(product));
    ghost var ops3 := disk.ops;
    CleanOldRepoRpms(disk, product, oldestFirst);
    AddsTwice(old(disk.ops), ops3, disk.ops, Places(product));
    PublishedIsStaged(read, oldestFirst, Lookup(m, product), m[s].entries, timestamp, rollbackKeep);
    assert s != product by { assert |s| != |product|; }
  }

  /** Whatever production was before, publishing brings every staged entry, and no other, with the staged node;
      only the history and the repository packages are treated otherwise. */
  lemma PublishedIsStaged(read: Readers, oldestFirst: ByAge, prod: Option<Node>, staging: Entries,
                          timestamp: string, rollbackKeep: int)
    ensures forall x :: x != ROLLBACK && x != REPO_RPM ==>
      Lookup(Published(read, oldestFirst, prod, staging, timestamp, rollbackKeep), x) == Lookup(staging, x)
  {
    hide Copy, Pruned, Recorded, StartHistory, CleanedRpms;
  }

  /** What publishing leaves of the snapshots: those of staging when there was no production, and otherwise those
      of production with the new one; pruned in both cases. */
  lemma PublishedSnapshots(read: Readers, oldestFirst: ByAge, prod: Option<Node>, staging: Entries,
                           timestamp: string, rollbackKeep: int)
    ensures var keep := if rollbackKeep <= 0 then 3 else rollbackKeep;
      var left := Lookup(Published(read, oldestFirst, prod, staging, timestamp, rollbackKeep), ROLLBACK);
      && (prod.None? && !HasHistory(Dir(staging)) ==> left == Lookup(staging, ROLLBACK))
      && (prod.None? && HasHistory(Dir(staging)) ==> left == Some(Dir(Pruned(History(Dir(staging)), keep))))
      && (prod.Some? && ROLLBACK !in staging ==>
            left == Some(Dir(Pruned(Recorded(read.backup, History(prod.value), prod.value, timestamp), keep))))
  {
    hide Copy, Pruned, Recorded, CleanedRpms;
    PreservedFacts(read.repoRpm, prod, staging);
  }

  /** Of these repository packages three, or all when there are fewer, are left, and everything else is. */
  ghost predicate PackagesCleaned(before: Entries, after: Entries) {
    && (forall x :: x in after ==> x in before && after[x] == before[x])
    && (forall x :: x in before && (before[x].Dir? || Ext(x) != ".rpm") ==> x in after)
    && |Rpms(after)| == Min(3, |Rpms(before)|)
    && (forall x :: x in Rpms(before) <==> x in before && !before[x].Dir? && Ext(x) == ".rpm")
  }

  /** What publishing leaves of staged repository packages: without old ones exactly the staged directory, cleaned;
      with old ones a directory in which nothing that is staged under another name is lost before the cleaning. */
  lemma StagedPackagesStay(read: Readers, oldestFirst: ByAge, prod: Option<Node>, staging: Entries,
                           timestamp: string, rollbackKeep: int)
    requires Lists(oldestFirst)
    ensures var left := Lookup(Published(read, oldestFirst, prod, staging, timestamp, rollbackKeep), REPO_RPM);
      var old_, staged := Child(prod, REPO_RPM), Lookup(staging, REPO_RPM);
      && (!(old_.Some? && old_.value.Dir?) ==>
            if staged.Some? && staged.value.Dir? then
              left.Some? && left.value.Dir? && PackagesCleaned(staged.value.entries, left.value.entries)
            else left == staged)
      && (old_.Some? && old_.value.Dir? && staged.Some? && staged.value.Dir? ==>
            && left.Some? && left.value.Dir?
            && exists merged: Entries ::
                 && (forall x :: x !in old_.value.entries ==> Lookup(merged, x) == Lookup(staged.value.entries, x))
                 && PackagesCleaned(merged, left.value.entries))
  {
    hide Copy, Pruned, Recorded, StartHistory, CleanedRpms, PackagesCleaned;
    var old_, staged := Child(prod, REPO_RPM), Lookup(staging, REPO_RPM);
    if staged.Some? && staged.value.Dir? {
      CleanedPackages(staged.value.entries, oldestFirst);
      if old_.Some? && old_.value.Dir? {
        CopyKeepsOthers(read.repoRpm, [], old_.value, staged.value.entries);
        var merged := Copy(read.repoRpm, [], old_.value, staged).node.value.entries;
        CleanedPackages(merged, oldestFirst);
        assert forall x :: x !in old_.value.entries ==> Lookup(merged, x) == Lookup(staged.value.entries, x);
      }
    }
  }

  lemma CleanedPackages(es: Entries, oldestFirst: ByAge)
    requires Lists(oldestFirst)
    ensures PackagesCleaned(es, CleanedRpms(es, oldestFirst))
  {
    hide CleanedRpms, Ext, IsRpm;
    OnlyRpmsGo(es, oldestFirst);
    CleanKeepsCount(es, oldestFirst);
    forall x
      ensures IsRpm(x) <==> Ext(x) == ".rpm"
    {
      RpmByExt(x);
    }
  }

  /** These entries are all files. */
  ghost predicate OnlyFiles(es: Entries) { forall x :: x in es ==> es[x].File? }

  /** A preserved file replaces the staged one of its name: with files only, the packages that are cleaned are those
      of staging and, over them, those of the old production. */
  lemma PreservedReplaces(read: Readers, oldestFirst: ByAge, prod: Option<Node>, staging: Entries,
                          timestamp: string, rollbackKeep: int, old_: Entries, staged: Entries)
    requires Child(prod, REPO_RPM) == Some(Dir(old_)) && Lookup(staging, REPO_RPM) == Some(Dir(staged))
    requires OnlyFiles(old_) && OnlyFiles(staged)
    ensures Lookup(Published(read, oldestFirst, prod, staging, timestamp, rollbackKeep), REPO_RPM) ==
      Some(Dir(CleanedRpms(staged + old_, oldestFirst)))
  {
    hide Copy, Pruned, Recorded, StartHistory, CleanedRpms;
    CopyOverFiles(read.repoRpm, [], Dir(old_), staged);
  }

  lemma CopyOverFiles(read: Reader, at: Path, src: Node, dst: Entries)
    requires src.Dir? && OnlyFiles(src.entries) && OnlyFiles(dst)
    ensures Copy(read, at, src, Some(Dir(dst))) == Copied(Some(Dir(dst + src.entries)), true)
  {
    var names := InOrder(src.entries.Keys);
    NamedOverFiles(read, at, src, names, dst);
    var r := CopyNamed(read, at, src, names, dst);
    assert r.entries == dst + src.entries by {
      forall x
        ensures Lookup(r.entries, x) == Lookup(dst + src.entries, x)
      {
        assert x in names <==> x in src.entries;
      }
      SameEntries(r.entries, dst + src.entries);
    }
  }

  lemma SameEntries(es: Entries, fs: Entries)
    requires forall x :: Lookup(es, x) == Lookup(fs, x)
    ensures es == fs
  {
    forall x
      ensures x in es <==> x in fs
      ensures x in es && x in fs ==> es[x] == fs[x]
    {
      assert Lookup(es, x) == Lookup(fs, x);
    }
  }

  lemma {:induction false} NamedOverFiles(read: Reader, at: Path, src: Node, names: seq<string>, dst: Entries)
    requires src.Dir? && OnlyFiles(src.entries) && OnlyFiles(dst) && forall x :: x in names ==> x in src.entries
    ensures CopyNamed(read, at, src, names, dst).ok
    ensures forall x :: Lookup(CopyNamed(read, at, src, names, dst).entries, x) ==
                        if x in names then Some(src.entries[x]) else Lookup(dst, x)
  {
    hide Copy;
    if names != [] {
      var before, x := names[..|names| - 1], names[|names| - 1];
      assert names == before + [x];
      NamedOverFiles(read, at, src, before, dst);
      CopyFile(read, at + [x], src.entries[x], Lookup(CopyNamed(read, at, src, before, dst).entries, x));
    }
  }

  lemma CopyFile(read: Reader, at: Path, src: Node, dst: Option<Node>)
    requires src.File? && (dst.Some? ==> dst.value.File?)
    ensures Copy(read, at, src, dst) == Copied(Some(src), true)
  {
  }

  /** Copying into a directory leaves the entries that the copied tree does not have. */
  lemma CopyKeepsOthers(read: Reader, at: Path, src: Node, dst: Entries)
    requires src.Dir?
    ensures var r := Copy(read, at, src, Some(Dir(dst))).node;
      r.Some? && r.value.Dir? &&
      forall x :: x !in src.entries ==> Lookup(r.value.entries, x) == Lookup(dst, x)
  {
    CopyNamedKeepsOthers(read, at, src, InOrder(src.entries.Keys), dst);
  }

  lemma {:induction false} CopyNamedKeepsOthers(read: Reader, at: Path, src: Node, names: seq<string>, dst: Entries)
    requires src.Dir? && forall x :: x in names ==> x in src.entries
    ensures forall x :: x !in names ==> Lookup(CopyNamed(read, at, src, names, dst).entries, x) == Lookup(dst, x)
  {
    hide Copy;
    if names != [] {
      CopyNamedKeepsOthers(read, at, src, names[..|names| - 1], dst);
    }
  }

  lemma PublishedIs(read: Readers, oldestFirst: ByAge, prod: Option<Node>, staging: Entries,
                    timestamp: string, rollbackKeep: int)
    ensures Published(read, oldestFirst, prod, staging, timestamp, rollbackKeep) ==
      WithCleanRpms(WithPrunedHistory(Merged(read, prod, staging, timestamp),
                                      if rollbackKeep <= 0 then 3 else rollbackKeep), oldestFirst)
  {
  }

  /** Completes the staging tree from production, and removes production. */
  method MergeStaging(disk: Disk, product: string, timestamp: string, read: Readers)
    requires disk.Valid() && HasStaging(disk.Tree(), product)
    modifies disk
    ensures disk.Valid() && Adds(old(disk.ops), disk.ops, Places(product))
    ensures var m, s := old(disk.Tree()), StagingName(product);
      disk.Tree() == (m - {product})[s := Dir(Merged(read, Lookup(m, product), m[s].entries, timestamp))]
  {
    hide Get, Put, Cut, Preserved, BackedUp, Adds, Disk.Logged;
    ghost var m := disk.Tree();
    var s := StagingName(product);
    assert product != s by { assert |product| != |s|; }
    NothingAdded(disk.ops, Places(product));
    GetShort(m, product, "", "");
    if Get(disk.root, [product]).Some? {
      Preserve(disk, product, read.repoRpm);
    }
    PreservedFacts(read.repoRpm, Lookup(m, product), m[s].entries);
    ghost var ops1, m1 := disk.ops, disk.Tree();
    assert product !in m ==> m1 == m && m - {product} == m && m[s := m[s]] == m;
    GetShort(m1, product, "", "");
    if Get(disk.root, [product]).Some? {
      BackUp(disk, product, timestamp, read.backup);
      AddsTwice(old(disk.ops), ops1, disk.ops, Places(product));
    }
  }

  lemma NothingAdded(ops: seq<FileOp>, names: set<string>)
    ensures Adds(ops, ops, names)
  {
  }

  /** The repository packages after a publish of a build that has none of its own: those of the old production,
      copied and cleaned. */
  lemma RepoRpmsLeft(read: Readers, oldestFirst: ByAge, prod: Node, staging: Entries, timestamp: string,
                     rollbackKeep: int, copied: Entries)
    requires REPO_RPM !in staging && prod.Dir? && REPO_RPM in prod.entries && prod.entries[REPO_RPM].Dir?
    requires Copy(read.repoRpm, [], prod.entries[REPO_RPM], None).node == Some(Dir(copied))
    ensures var published := Published(read, oldestFirst, Some(prod), staging, timestamp, rollbackKeep);
      REPO_RPM in published && published[REPO_RPM] == Dir(CleanedRpms(copied, oldestFirst))
  {
    hide Copy, Pruned, Recorded, StartHistory, CleanedRpms;
    var kept := Preserved(read.repoRpm, Some(prod), staging);
    assert kept[REPO_RPM] == Dir(copied);
  }

  lemma OnlyRpmsGo(es: Entries, oldestFirst: ByAge)
    requires Lists(oldestFirst)
    ensures forall x :: x in CleanedRpms(es, oldestFirst) ==> x in es && CleanedRpms(es, oldestFirst)[x] == es[x]
    ensures forall x :: x in es && x !in Rpms(es) ==> x in CleanedRpms(es, oldestFirst)
  {
    hide Rpms;
    var rpms, order := Rpms(es), oldestFirst(Rpms(es));
    forall x | x in order[..if |rpms| <= 3 then 0 else |rpms| - 3]
      ensures x in rpms
    {
      assert x in order;
    }
  }
}
