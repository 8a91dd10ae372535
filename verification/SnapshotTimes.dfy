/** Snapshots by the times their names stand for (internal/pipeline/stage_publish.go). */
module SnapshotTimes {
  import opened Wrappers
  import opened Names
  import opened FileTree
  import opened Snapshots
  import opened Publish
  import opened Timestamps
  import opened Rollback
  import opened SnapshotRuns

  ghost predicate AllOnCalendar(times: set<Time>) { forall t :: t in times ==> OnCalendar(t) }

  function Stamps(times: set<Time>): set<string> { set t | t in times :: Stamp(t) }

  /** These names stand for these times. */
  ghost predicate StandFor(names: set<string>, times: set<Time>) {
    AllOnCalendar(times) && names == Stamps(times)
  }

  function Since(times: set<Time>, t: Time): set<Time> { set u | u in times && Seconds(t) < Seconds(u) }

  /** The n latest times of a set. */
  function Latest(times: set<Time>, n: nat): set<Time> { set t | t in times && |Since(times, t)| < n }

  lemma {:induction false} StampsSize(times: set<Time>)
    requires AllOnCalendar(times)
    ensures |Stamps(times)| == |times|
  {
    hide Stamp, OnCalendar;
    if times != {} {
      var t :| t in times;
      StampsSize(times - {t});
      forall u | u in times - {t}
        ensures Stamp(u) != Stamp(t)
      {
        StampOrder(u, t);
      }
      assert Stamps(times) == Stamps(times - {t}) + {Stamp(t)};
    }
  }

  /** The names after one of them stand for the times after its time. */
  lemma LaterNames(times: set<Time>, t: Time)
    requires AllOnCalendar(times) && t in times
    ensures |Later(Stamps(times), Stamp(t))| == |Since(times, t)|
  {
    hide Stamp, Less, Seconds, OnCalendar;
    forall u | u in times
      ensures Less(Stamp(t), Stamp(u)) <==> Seconds(t) < Seconds(u)
    {
      StampOrder(t, u);
    }
    assert Later(Stamps(times), Stamp(t)) == Stamps(Since(times, t));
    StampsSize(Since(times, t));
  }

  lemma DirsLeft(es: Entries, keep: nat)
    ensures forall x :: x in DirNames(Pruned(es, keep)) <==> x in DirNames(es) && x in Pruned(es, keep)
  {
    hide Newer;
  }

  /** Pruning keeps the snapshots of the latest times. */
  lemma PrunedByTime(es: Entries, keep: nat, times: set<Time>)
    requires StandFor(DirNames(es), times)
    ensures StandFor(DirNames(Pruned(es, keep)), Latest(times, keep))
    ensures |Latest(times, keep)| == Min(keep, |times|)
    ensures forall t, u :: t in Latest(times, keep) && u in times - Latest(times, keep) ==> Seconds(u) < Seconds(t)
  {
    hide Stamp, Less, Seconds, OnCalendar, Since, Later;
    forall t | t in times
      ensures Stamp(t) in Pruned(es, keep) <==> t in Latest(times, keep)
    {
      assert Stamp(t) in DirNames(es);
      LaterNames(times, t);
    }
    DirsLeft(es, keep);
    forall x
      ensures x in DirNames(Pruned(es, keep)) <==> x in Stamps(Latest(times, keep))
    {
      if x in DirNames(es) {
        var t :| t in times && x == Stamp(t);
        if u :| u in Latest(times, keep) && x == Stamp(u) {
          StampOrder(t, u);
        }
      }
    }
    PrunedKeepsNewest(es, keep);
    StampsSize(times);
    StampsSize(Latest(times, keep));
    forall t, u | t in Latest(times, keep) && u in times - Latest(times, keep)
      ensures Seconds(u) < Seconds(t)
    {
      FewSince(times, t, u);
    }
  }

  lemma FewSince(times: set<Time>, t: Time, u: Time)
    requires t in times && u in times && AllOnCalendar(times) && |Since(times, t)| < |Since(times, u)|
    ensures Seconds(u) < Seconds(t)
  {
    hide Seconds, OnCalendar;
    if Seconds(t) <= Seconds(u) {
      TimesSubset(Since(times, u), Since(times, t));
    }
  }

  lemma {:induction false} TimesSubset(s: set<Time>, t: set<Time>)
    requires s <= t
    ensures |s| <= |t|
  {
    if s != {} {
      var x :| x in s;
      TimesSubset(s - {x}, t - {x});
    }
  }

  /** After a publish at a time, the snapshots are those of the latest min(keep, n + 1) times; the new one is among
      them and the others are as they were. */
  lemma PublishKeepsLatest(s: State, op: Op, times: set<Time>, now: Time)
    requires op.Publish? && Legal(s, op) && Good(s) && s.prod.Some?
    requires StandFor(History(s.prod.value).Keys, times) && OnCalendar(now) && op.timestamp == Stamp(now)
    ensures var keep := if op.rollbackKeep <= 0 then 3 else op.rollbackKeep;
      var before, after := History(s.prod.value), History(Next(s, op).prod.value);
      var left := Latest(times + {now}, keep);
      && StandFor(after.Keys, left) && now in left && |left| == Min(keep, |times| + 1)
      && (forall t, u :: t in left && u in (times + {now}) - left ==> Seconds(u) < Seconds(t))
      && (forall t :: t in left && t != now ==> Stamp(t) in before && after[Stamp(t)] == before[Stamp(t)])
  {
    hide Stamp, Less, Seconds, OnCalendar, Next, Good, Legal, History, Latest;
    var keep := if op.rollbackKeep <= 0 then 3 else op.rollbackKeep;
    var left := Latest(times + {now}, keep);
    LatestAreLeft(s, op, times, now);
    PublishKeepsSnapshots(s, op);
    assert left <= times + {now};
    StampsAreTimes(times + {now}, left, now);
  }

  lemma LatestAreLeft(s: State, op: Op, times: set<Time>, now: Time)
    requires op.Publish? && Legal(s, op) && Good(s) && s.prod.Some?
    requires StandFor(History(s.prod.value).Keys, times) && OnCalendar(now) && op.timestamp == Stamp(now)
    ensures var all, left := times + {now}, Latest(times + {now}, KeepCount(op.rollbackKeep));
      && StandFor(History(Next(s, op).prod.value).Keys, left)
      && left <= all && |left| == Min(KeepCount(op.rollbackKeep), |times| + 1)
      && forall t, u :: t in left && u in all - left ==> Seconds(u) < Seconds(t)
  {
    hide Stamp, Less, Seconds, OnCalendar, Next, Recorded, Pruned, History, Since, Faithful, Legal;
    var all := times + {now};
    var recorded := Recorded(op.read.backup, History(s.prod.value), s.prod.value, op.timestamp);
    PublishedHistory(s, op);
    RecordedIsFaithful(s, op);
    AllDirectories(Next(s, op), recorded);
    NewStamp(History(s.prod.value), recorded, times, now);
    PrunedByTime(recorded, KeepCount(op.rollbackKeep), all);
    PrunedDirs(recorded, KeepCount(op.rollbackKeep));
  }

  lemma NewStamp(before: Entries, recorded: Entries, times: set<Time>, now: Time)
    requires StandFor(before.Keys, times) && OnCalendar(now) && Stamp(now) !in before
    requires recorded.Keys == before.Keys + {Stamp(now)}
    ensures StandFor(recorded.Keys, times + {now}) && |times + {now}| == |times| + 1
  {
    hide Stamp, OnCalendar;
    assert Stamp(now) !in Stamps(times);
    assert Stamps(times + {now}) == Stamps(times) + {Stamp(now)};
  }

  lemma StampsAreTimes(all: set<Time>, left: set<Time>, now: Time)
    requires AllOnCalendar(all) && now in all && left <= all
    ensures Stamp(now) in Stamps(left) ==> now in left
    ensures forall t :: t in left && t != now ==> Stamp(t) != Stamp(now)
  {
    hide Stamp, OnCalendar;
    forall t | t in all && Stamp(t) == Stamp(now)
      ensures t == now
    {
      StampOrder(t, now);
    }
  }

  /** Every publish of the run names its snapshot after a time. */
  ghost predicate Stamped(ops: seq<Op>) {
    forall i :: 0 <= i < |ops| && ops[i].Publish? ==> exists t :: OnCalendar(t) && ops[i].timestamp == Stamp(t)
  }

  /** In every run the snapshots stand for a set of times, so the listing and the pruning go by these. */
  lemma {:induction false} RunStandsForTimes(start: State, ops: seq<Op>) returns (times: set<Time>)
    requires Fresh(start) && LegalRun(start, ops) && Stamped(ops)
    ensures Run(start, ops).prod.Some? ==> StandFor(History(Run(start, ops).prod.value).Keys, times)
  {
    hide Stamp, Next, History, Good, Latest, OnCalendar;
    if ops == [] {
      times := {};
      assert Stamps(times) == {};
    } else {
      var before, op := ops[..|ops| - 1], ops[|ops| - 1];
      times := RunStandsForTimes(start, before);
      FreshIsGood(start);
      RunIsGood(start, before);
      times := StepStandsForTimes(Run(start, before), op, times);
    }
  }

  lemma FreshIsGood(start: State)
    requires Fresh(start)
    ensures Good(start)
  {
  }

  lemma StepStandsForTimes(s: State, op: Op, times: set<Time>) returns (next: set<Time>)
    requires Good(s) && Legal(s, op)
    requires op.Publish? ==> exists t :: OnCalendar(t) && op.timestamp == Stamp(t)
    requires s.prod.Some? ==> StandFor(History(s.prod.value).Keys, times)
    ensures Next(s, op).prod.Some? ==> StandFor(History(Next(s, op).prod.value).Keys, next)
  {
    hide Stamp, History, Latest, OnCalendar, Published, Restored, Less, Faithful;
    if op.Publish? {
      if s.prod.Some? {
        var now :| OnCalendar(now) && op.timestamp == Stamp(now);
        PublishKeepsLatest(s, op, times, now);
        next := Latest(times + {now}, if op.rollbackKeep <= 0 then 3 else op.rollbackKeep);
      } else {
        next := {};
        PublishedHistory(s, op);
        assert Stamps(next) == {};
      }
    } else if s.prod.Some? && op.snapshot in History(s.prod.value) {
      RollbackKeepsSnapshots(s, op.snapshot);
      next := set t | t in times && Stamp(t) != op.snapshot;
      assert Stamps(next) == Stamps(times) - {op.snapshot};
    } else {
      next := times;
    }
  }
}
