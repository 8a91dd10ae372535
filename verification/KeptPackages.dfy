/** Which repository packages stay after a publish: their ages are the times at which they were copied
    (internal/pipeline/stage_publish.go). */
module KeptPackages {
  import opened Wrappers
  import opened Names
  import opened FileTree
  import opened FileSystem
  import opened Snapshots
  import opened Publish
  import opened WalkOrder

  /** The time of the i-th item that a copy writes. */
  type Clock = nat -> int

  ghost predicate NeverBack(clock: Clock) {
    forall i, j :: 0 <= i < j ==> clock(i) <= clock(j)
  }

  ghost predicate AlwaysOn(clock: Clock) {
    forall i, j :: 0 <= i < j ==> clock(i) < clock(j)
  }

  /** The place of a path in the order in which a tree is written. */
  ghost function PlaceOf(items: seq<Item>, p: Path): (i: nat)
    requires HasPath(items, p)
    ensures i < |items| && items[i].path == p
  {
    var i :| 0 <= i < |items| && items[i].path == p;
    i
  }

  /** The modification time of a file at the top of a copied directory. A copy to a free place holds exactly the
      items walked, in that order, so the place of an item in it says when it was written. */
  ghost function ModTime(clock: Clock, copied: Entries, x: string): int {
    if HasPath(Listing([], Dir(copied)), [x]) then clock(PlaceOf(Listing([], Dir(copied)), [x])) else 0
  }

  /** Files are written in the order of their names. */
  lemma PlacesFollowNames(copied: Entries, x: string, y: string)
    requires x in copied && y in copied && Less(x, y)
    ensures var items := Listing([], Dir(copied));
      HasPath(items, [x]) && HasPath(items, [y]) && PlaceOf(items, [x]) < PlaceOf(items, [y])
  {
    hide Listing, HasPath;
    var items := Listing([], Dir(copied));
    ListingOrdered([], Dir(copied));
    AtTop(copied, x);
    AtTop(copied, y);
    assert Before([x], [y]);
    BeforeAsymmetric([x], [y]);
    BeforeIrreflexive([x]);
    hide Before;
    var i, j := PlaceOf(items, [x]), PlaceOf(items, [y]);
    assert !(j < i);
  }

  lemma AtTop(copied: Entries, x: string)
    requires x in copied
    ensures HasPath(Listing([], Dir(copied)), [x])
  {
    hide Listing, HasPath;
    assert [] + [x] == [x] && [x][1..] == [];
    ListingIsTree([], Dir(copied), [x]);
  }

  /** The packages are listed from the oldest to the newest. */
  ghost predicate SortedByTime(names: seq<string>, clock: Clock, copied: Entries) {
    forall i, j :: 0 <= i < j < |names| ==> ModTime(clock, copied, names[i]) <= ModTime(clock, copied, names[j])
  }

  /** Preserving makes these of the repository packages of the old production. */
  ghost predicate Preserves(read: Reader, prod: Node, copied: Entries) {
    && prod.Dir? && REPO_RPM in prod.entries && prod.entries[REPO_RPM].Dir?
    && Copy(read, [], prod.entries[REPO_RPM], None).node == Some(Dir(copied))
  }

  /** Preserving gives the packages new times in the order of the walk. With a clock that moves on between two
      writes exactly the last three by name stay. With a coarser clock that never goes back, a package goes
      while one that is earlier by name stays only when both were written at the same time. Everything else
      in the directory stays. */
  lemma LastPackagesStay(read: Readers, oldestFirst: ByAge, prod: Node, staging: Entries, timestamp: string,
                         rollbackKeep: int, copied: Entries, clock: Clock)
    requires REPO_RPM !in staging && Preserves(read.repoRpm, prod, copied)
    requires Lists(oldestFirst) && SortedByTime(oldestFirst(Rpms(copied)), clock, copied) && NeverBack(clock)
    ensures var published := Published(read, oldestFirst, Some(prod), staging, timestamp, rollbackKeep);
      && REPO_RPM in published && published[REPO_RPM].Dir?
      && var left, rpms := published[REPO_RPM].entries, Rpms(copied);
      && (forall x :: x in left ==> x in copied && left[x] == copied[x])
      && (forall x :: x in copied && x !in rpms ==> x in left)
      && |Rpms(left)| == Min(3, |rpms|)
      && (AlwaysOn(clock) ==> forall x :: x in rpms ==> (x in left <==> |Later(rpms, x)| < 3))
      && (forall x, y :: x in rpms && x !in left && y in Rpms(left) && Less(y, x) ==>
            ModTime(clock, copied, x) == ModTime(clock, copied, y))
  {
    hide Copy, Less, Later, Rpms, ModTime, Published, CleanedRpms;
    RepoRpmsLeft(read, oldestFirst, prod, staging, timestamp, rollbackKeep, copied);
    var modTime := (x: string) => ModTime(clock, copied, x);
    OnlyRpmsGo(copied, oldestFirst);
    CleanKeepsNewest(copied, oldestFirst, modTime);
    forall x, y | x in copied && y in copied && Less(x, y)
      ensures modTime(x) <= modTime(y) && (AlwaysOn(clock) ==> modTime(x) < modTime(y))
    {
      TimesFollowNames(copied, clock, x, y);
    }
    if AlwaysOn(clock) {
      NewestIsLastByName(copied, oldestFirst, modTime);
    }
    RpmsAreThere(copied);
    RpmsAreThere(CleanedRpms(copied, oldestFirst));
  }

  lemma RpmsAreThere(es: Entries)
    ensures forall x :: x in Rpms(es) ==> x in es
  {
  }

  lemma TimesFollowNames(copied: Entries, clock: Clock, x: string, y: string)
    requires x in copied && y in copied && Less(x, y) && NeverBack(clock)
    ensures ModTime(clock, copied, x) <= ModTime(clock, copied, y)
    ensures AlwaysOn(clock) ==> ModTime(clock, copied, x) < ModTime(clock, copied, y)
  {
    hide Less, Listing, HasPath, PlaceOf;
    PlacesFollowNames(copied, x, y);
  }
}
