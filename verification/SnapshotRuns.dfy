/** Runs of publishes and rollbacks of one product, one after the other. */
module SnapshotRuns {
  import opened Wrappers
  import opened Names
  import opened FileTree
  import opened Snapshots
  import opened Publish
  import opened Rollback

  datatype Op =
    | Publish(timestamp: string, staging: Entries, rollbackKeep: int, read: Readers, oldestFirst: ByAge)
    | Rollback(snapshot: string)

  /** A production tree outside its snapshots, and how its links read, when a publish replaced it. */
  datatype Taken = Taken(tree: Node, read: Reader)

  // taken: what each publish replaced, by timestamp; last: the latest timestamp used.
  datatype State = State(prod: Option<Node>, taken: map<string, Taken>, last: string)

  /** A publish has a later timestamp than all before it and a staging tree without a history. */
  ghost predicate Legal(s: State, op: Op) {
    match op
    case Publish(ts, staging, _, _, _) => Less(s.last, ts) && ROLLBACK !in staging
    case Rollback(_) => true
  }

  ghost function Next(s: State, op: Op): State {
    match op
    case Publish(ts, staging, keep, read, oldestFirst) =>
      State(Some(Dir(Published(read, oldestFirst, s.prod, staging, ts, keep))),
            if s.prod.Some? then s.taken[ts := Taken(Without(s.prod.value, {ROLLBACK}), read.backup)] else s.taken,
            ts)
    case Rollback(snapshot) =>
      if s.prod.Some? && snapshot in History(s.prod.value)
      then s.(prod := Some(Restored(s.prod.value, snapshot)))
      else s
  }

  /** A snapshot is the copy of what its publish replaced; it is a directory without snapshots of its own. */
  ghost predicate Faithful(s: State, name: string, snapshot: Node) {
    && name in s.taken && snapshot.Dir? && ROLLBACK !in snapshot.entries
    && Copy(s.taken[name].read, [], s.taken[name].tree, None).node == Some(snapshot)
    && (name == s.last || Less(name, s.last))
  }

  ghost predicate Good(s: State) {
    s.prod.Some? ==>
      s.prod.value.Dir? && forall name :: name in History(s.prod.value) ==>
        Faithful(s, name, History(s.prod.value)[name])
  }

  ghost predicate LegalRun(start: State, ops: seq<Op>) {
    ops == [] || (LegalRun(start, ops[..|ops| - 1]) && Legal(Run(start, ops[..|ops| - 1]), ops[|ops| - 1]))
  }

  ghost function Run(start: State, ops: seq<Op>): State {
    if ops == [] then start else Next(Run(start, ops[..|ops| - 1]), ops[|ops| - 1])
  }

  /** The copy of a directory is a directory with no more entries. */
  lemma CopyOfDir(read: Reader, src: Node)
    requires src.Dir?
    ensures var r := Copy(read, [], src, None).node;
      r.Some? && r.value.Dir? && r.value.entries.Keys <= src.entries.Keys
  {
    hide Less;
    var names := InOrder(src.entries.Keys);
    CopyNamedIsWalked(read, [], src, names);
  }

  lemma PublishedHistory(s: State, op: Op)
    requires op.Publish? && Legal(s, op) && Good(s)
    ensures Next(s, op).prod.Some? && Next(s, op).prod.value.Dir? && Next(s, op).last == op.timestamp
    ensures s.prod.None? ==> History(Next(s, op).prod.value) == map[]
    ensures s.prod.Some? ==>
      var recorded := Recorded(op.read.backup, History(s.prod.value), s.prod.value, op.timestamp);
      History(Next(s, op).prod.value) == Pruned(recorded, KeepCount(op.rollbackKeep))
  {
    hide Less, Copy, CleanedRpms, Pruned, Recorded;
    PreservedFacts(op.read.repoRpm, s.prod, op.staging);
  }

  lemma RecordedIsFaithful(s: State, op: Op)
    requires op.Publish? && Legal(s, op) && Good(s) && s.prod.Some?
    ensures var r := Recorded(op.read.backup, History(s.prod.value), s.prod.value, op.timestamp);
      && op.timestamp in r && op.timestamp !in History(s.prod.value)
      && r == History(s.prod.value)[op.timestamp := r[op.timestamp]]
      && forall name :: name in r ==> Faithful(Next(s, op), name, r[name])
  {
    hide Less, Copy, Published, History;
    var tree := Without(s.prod.value, {ROLLBACK});
    CopyOfDir(op.read.backup, tree);
    LessIrreflexive(op.timestamp);
    if op.timestamp in History(s.prod.value) {
      assert Faithful(s, op.timestamp, History(s.prod.value)[op.timestamp]);
      LessAsymmetric(s.last, op.timestamp);
      assert false;
    }
    var r := Recorded(op.read.backup, History(s.prod.value), s.prod.value, op.timestamp);
    forall name | name in r
      ensures Faithful(Next(s, op), name, r[name])
    {
      if name != op.timestamp {
        assert Faithful(s, name, History(s.prod.value)[name]);
        if name != s.last {
          LessTransitive(name, s.last, op.timestamp);
        }
      }
    }
  }

  /** A publish keeps every remaining snapshot faithful and leaves exactly the newest min(keep, n + 1). */
  lemma PublishKeepsSnapshots(s: State, op: Op)
    requires op.Publish? && Legal(s, op) && Good(s)
    ensures Good(Next(s, op))
    ensures s.prod.Some? ==>
      var before, after := History(s.prod.value), History(Next(s, op).prod.value);
      && op.timestamp in after
      && (forall name :: name in after && name != op.timestamp ==> name in before && after[name] == before[name])
      && |after| == Min(KeepCount(op.rollbackKeep), |before| + 1)
      && (forall x, y :: x in after && y in before && Less(x, y) ==> y in after)
  {
    hide Less, Next, Pruned, Recorded, History;
    PublishedHistory(s, op);
    if s.prod.Some? {
      RecordedIsFaithful(s, op);
      var recorded := Recorded(op.read.backup, History(s.prod.value), s.prod.value, op.timestamp);
      PrunedSnapshots(s, op, recorded);
    } else {
      assert Good(Next(s, op));
    }
  }

  lemma PrunedSnapshots(s: State, op: Op, recorded: Entries)
    requires op.Publish? && Good(s) && s.prod.Some? && op.timestamp in recorded
    requires op.timestamp !in History(s.prod.value)
    requires recorded == History(s.prod.value)[op.timestamp := recorded[op.timestamp]]
    requires forall name :: name in recorded ==> Faithful(Next(s, op), name, recorded[name])
    requires Next(s, op).last == op.timestamp
    ensures var before, after := History(s.prod.value), Pruned(recorded, KeepCount(op.rollbackKeep));
      && op.timestamp in after
      && (forall name :: name in after ==> name in recorded && after[name] == recorded[name])
      && |after| == Min(KeepCount(op.rollbackKeep), |before| + 1)
      && (forall x, y :: x in after && y in before && Less(x, y) ==> y in after)
  {
    hide Less, Next, History, Newer, Pruned, Faithful, Good, DirNames;
    var before, keep := History(s.prod.value), KeepCount(op.rollbackKeep);
    var after := Pruned(recorded, keep);
    AllDirectories(Next(s, op), recorded);
    assert recorded.Keys == before.Keys + {op.timestamp};
    assert |recorded.Keys| == |before.Keys| + 1;
    PrunedDirs(recorded, keep);
    PrunedKeepsNewest(recorded, keep);
    NothingNewer(s, op, recorded);
    KeptWhenNewest(recorded, keep, op.timestamp);
  }

  lemma AllDirectories(s: State, es: Entries)
    requires forall name :: name in es ==> Faithful(s, name, es[name])
    ensures DirNames(es) == es.Keys
  {
    hide Copy, Less;
    forall name | name in es
      ensures es[name].Dir?
    {
      assert Faithful(s, name, es[name]);
    }
  }

  lemma PrunedDirs(es: Entries, keep: nat)
    requires DirNames(es) == es.Keys
    ensures DirNames(Pruned(es, keep)) == Pruned(es, keep).Keys
    ensures forall name :: name in Pruned(es, keep) ==> name in es && Pruned(es, keep)[name] == es[name]
  {
    hide Newer;
  }

  lemma KeptWhenNewest(es: Entries, keep: nat, x: string)
    requires x in es && Newer(es, x) == {} && keep > 0
    ensures x in Pruned(es, keep)
  {
  }

  lemma NothingNewer(s: State, op: Op, recorded: Entries)
    requires op.Publish? && Next(s, op).last == op.timestamp
    requires forall name :: name in recorded ==> Faithful(Next(s, op), name, recorded[name])
    ensures Newer(recorded, op.timestamp) == {}
  {
    hide Less, Next;
    forall name | name in Newer(recorded, op.timestamp)
      ensures false
    {
      assert Faithful(Next(s, op), name, recorded[name]);
      LessAsymmetric(op.timestamp, name);
    }
  }

  lemma RollbackKeepsSnapshots(s: State, snapshot: string)
    requires Good(s) && s.prod.Some? && snapshot in History(s.prod.value)
    ensures Good(Next(s, Op.Rollback(snapshot)))
    ensures History(Restored(s.prod.value, snapshot)) == History(s.prod.value) - {snapshot}
    ensures Without(Restored(s.prod.value, snapshot), {ROLLBACK}) == History(s.prod.value)[snapshot]
  {
    hide Less, Copy;
    assert Faithful(s, snapshot, History(s.prod.value)[snapshot]);
    var after := Next(s, Op.Rollback(snapshot));
    forall name | name in History(after.prod.value)
      ensures Faithful(after, name, History(after.prod.value)[name])
    {
      assert Faithful(s, name, History(s.prod.value)[name]);
    }
    var n := History(s.prod.value)[snapshot].entries;
    assert n[ROLLBACK := Dir(History(s.prod.value) - {snapshot})] - {ROLLBACK} == n;
  }

  /** After any run, every snapshot is the copy of what its publish replaced. */
  lemma {:induction false} RunIsGood(start: State, ops: seq<Op>)
    requires Good(start) && LegalRun(start, ops)
    ensures Good(Run(start, ops))
  {
    if ops != [] {
      hide Good, Next;
      var before, op := ops[..|ops| - 1], ops[|ops| - 1];
      RunIsGood(start, before);
      StepIsGood(Run(start, before), op);
    }
  }

  lemma StepIsGood(s: State, op: Op)
    requires Good(s) && Legal(s, op)
    ensures Good(Next(s, op))
  {
    if op.Publish? {
      PublishKeepsSnapshots(s, op);
    } else if s.prod.Some? && op.snapshot in History(s.prod.value) {
      RollbackKeepsSnapshots(s, op.snapshot);
    }
  }

  /** A product that starts without production, or with one that has no history. */
  ghost predicate Fresh(start: State) {
    start.taken == map[] && (start.prod.Some? ==> start.prod.value.Dir? && History(start.prod.value) == map[])
  }

  /** After any run from a fresh start, each retained snapshot holds the part of the replaced tree walked
      before the first unreadable link, has no history of its own, and equals that tree
      exactly when the tree has no symbolic link. */
  lemma SnapshotsAreFaithful(start: State, ops: seq<Op>, name: string)
    requires Fresh(start) && LegalRun(start, ops)
    requires var s := Run(start, ops); s.prod.Some? && name in History(s.prod.value)
    ensures var s := Run(start, ops);
      && name in s.taken
      && var snapshot, taken := History(s.prod.value)[name], s.taken[name];
      && snapshot.Dir? && ROLLBACK !in snapshot.entries
      && Listing([], snapshot) == Walked(taken.read, Listing([], taken.tree))
      && (snapshot == taken.tree <==> Plain(taken.tree))
  {
    hide Run, LegalRun, Copy, Less, Listing, Walked, Plain, History;
    var s := Run(start, ops);
    assert Good(start);
    RunIsGood(start, ops);
    assert Faithful(s, name, History(s.prod.value)[name]);
    CopyIsWalked(s.taken[name].read, [], s.taken[name].tree);
    CopyIsExact(s.taken[name].read, [], s.taken[name].tree);
  }

  /** Publishing and rolling back to the new snapshot restores the old production tree
      exactly when it had no symbolic link; the other snapshots left by the publish stay as they were. */
  lemma RollbackUndoesPublish(s: State, op: Op)
    requires op.Publish? && Legal(s, op) && Good(s) && s.prod.Some?
    ensures var published := Next(s, op);
      && op.timestamp in History(published.prod.value)
      && var restored := Next(published, Op.Rollback(op.timestamp)).prod.value;
      var old_ := Without(s.prod.value, {ROLLBACK});
      && (Without(restored, {ROLLBACK}) == old_ <==> Plain(old_))
      && Copy(op.read.backup, [], old_, None).node == Some(Without(restored, {ROLLBACK}))
      && Listing([], Without(restored, {ROLLBACK})) == Walked(op.read.backup, Listing([], old_))
      && History(restored) == History(published.prod.value) - {op.timestamp}
      && (forall x :: x in History(restored) ==>
            x in History(s.prod.value) && History(restored)[x] == History(s.prod.value)[x])
  {
    hide Copy, Less, Listing, Walked, Plain, Published, Without, History, Restored;
    PublishKeepsSnapshots(s, op);
    var published := Next(s, op);
    RollbackKeepsSnapshots(published, op.timestamp);
    assert Faithful(published, op.timestamp, History(published.prod.value)[op.timestamp]);
    var old_ := Without(s.prod.value, {ROLLBACK});
    CopyIsWalked(op.read.backup, [], old_);
    CopyIsExact(op.read.backup, [], old_);
  }
}
