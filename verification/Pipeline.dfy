/** One run of the four-stage pipeline (internal/pipeline/pipeline.go), on the disk and on the build row. */
module Pipeline {
  import opened Wrappers
  import opened BuildStatus
  import BuildProtocol
  import opened FileTree
  import opened FileSystem
  import opened Snapshots
  import opened Publish

  // What the calls of a run answer. cancelled(i): the context check before stage i finds a cancellation;
  // built, signed: what the build and sign stages leave in staging, also when they fail.
  datatype Env = Env(stagingOk: bool, cancelled: Stage -> bool,
                     built: Entries, buildOk: bool, signed: Entries, signOk: bool, verifyOk: bool,
                     read: Readers, oldestFirst: ByAge, timestamp: string, rollbackKeep: int)
  {
    /** Whether a stage returns nil; publish does when its file system calls succeed. */
    predicate StageOk(i: Stage) {
      if i == 0 then buildOk else if i == 1 then signOk else if i == 2 then true else verifyOk
    }

    /** The number of stages that pass before the first that is cancelled or fails, from stage i on. */
    function PassedFrom(i: nat): (n: nat)
      requires i <= 4
      ensures i <= n <= 4
      ensures forall j: nat :: i <= j < n ==> !cancelled(j) && StageOk(j)
      ensures n < 4 ==> cancelled(n) || !StageOk(n)
      decreases 4 - i
    {
      if i == 4 || cancelled(i) || !StageOk(i) then i else PassedFrom(i + 1)
    }

    function Passed(): nat { if stagingOk then PassedFrom(0) else 0 }

    function Begun(): nat {
      if !stagingOk then 0 else if Passed() == 4 || cancelled(Passed()) then Passed() else Passed() + 1
    }

    function Outcome(): Status {
      if !stagingOk then Failed
      else if Passed() == 4 then Success
      else if cancelled(Passed()) then Cancelled
      else Failed
    }
  }

  /** The tree after a run: production is the published tree exactly when the publish stage returned nil. */
  ghost function After(m: Entries, product: string, env: Env): Entries {
    if env.Passed() >= 3 then Replaced(m, product, env) else m - {StagingName(product)}
  }

  /** The tree with production published and staging gone. */
  ghost function Replaced(m: Entries, product: string, env: Env): Entries {
    (m - {StagingName(product)})[product := Dir(
      Published(env.read, env.oldestFirst, Lookup(m, product), env.signed, env.timestamp, env.rollbackKeep))]
  }

  /** Staging was made, build and sign passed, and no check up to the one before publishing found a cancellation. */
  predicate ReachesPublish(env: Env) {
    env.stagingOk && !env.cancelled(0) && env.buildOk && !env.cancelled(1) && env.signOk && !env.cancelled(2)
  }

  /** Which answers end a run where: the statuses it writes, case by case. */
  predicate WritesByCase(env: Env, writes: seq<Status>) {
    && (!env.stagingOk ==> writes == [Failed])
    && (env.stagingOk && env.cancelled(0) ==> writes == [Cancelled])
    && (env.stagingOk && !env.cancelled(0) && !env.buildOk ==> writes == [Building, Failed])
    && (env.stagingOk && !env.cancelled(0) && env.buildOk && env.cancelled(1) ==> writes == [Building, Cancelled])
    && (env.stagingOk && !env.cancelled(0) && env.buildOk && !env.cancelled(1) && !env.signOk ==>
          writes == [Building, Signing, Failed])
    && (env.stagingOk && !env.cancelled(0) && env.buildOk && !env.cancelled(1) && env.signOk && env.cancelled(2) ==>
          writes == [Building, Signing, Cancelled])
    && (ReachesPublish(env) && env.cancelled(3) ==> writes == [Building, Signing, Publishing, Cancelled])
    && (ReachesPublish(env) && !env.cancelled(3) && !env.verifyOk ==>
          writes == [Building, Signing, Publishing, Verifying, Failed])
    && (ReachesPublish(env) && !env.cancelled(3) && env.verifyOk ==>
          writes == [Building, Signing, Publishing, Verifying, Success])
  }

  /** What a run does by the answers of its calls: it publishes exactly when staging was made, build and sign passed
      and no cancellation was found by then; it succeeds exactly when then nothing is cancelled and verify passes. */
  lemma RunDecided(m: Entries, product: string, env: Env)
    ensures WritesByCase(env, STAGES[..env.Begun()] + [env.Outcome()])
    ensures env.Outcome().Success? <==> ReachesPublish(env) && !env.cancelled(3) && env.verifyOk
    ensures After(m, product, env) ==
      if ReachesPublish(env) then Replaced(m, product, env) else m - {StagingName(product)}
  {
    hide Replaced;
    PassedByCase(env);
  }

  lemma PassedByCase(env: Env)
    ensures env.Passed() ==
      if !env.stagingOk || env.cancelled(0) || !env.buildOk then 0
      else if env.cancelled(1) || !env.signOk then 1
      else if env.cancelled(2) then 2
      else if env.cancelled(3) || !env.verifyOk then 3
      else 4
  {
    var n := env.Passed();
    if env.stagingOk {
      assert n <= 0 || !(env.cancelled(0) || !env.StageOk(0));
      assert n <= 1 || !(env.cancelled(1) || !env.StageOk(1));
      assert n <= 2 || !(env.cancelled(2) || !env.StageOk(2));
      assert n <= 3 || !(env.cancelled(3) || !env.StageOk(3));
    }
  }

  /** Runs the pipeline and returns the statuses it wrote to the build row, in order. */
  method Run(disk: Disk, product: string, env: Env) returns (writes: seq<Status>, err: bool)
    requires disk.Valid() && Lists(env.oldestFirst)
    modifies disk
    ensures disk.Valid() && Adds(old(disk.ops), disk.ops, Places(product))
    ensures writes == STAGES[..env.Begun()] + [env.Outcome()]
    ensures err <==> !env.Outcome().Success?
    ensures disk.Tree() == After(old(disk.Tree()), product, env)
    ensures WritesByCase(env, writes)
    ensures !err <==> ReachesPublish(env) && !env.cancelled(3) && env.verifyOk
    ensures disk.Tree() ==
      if ReachesPublish(env) then Replaced(old(disk.Tree()), product, env)
      else old(disk.Tree()) - {StagingName(product)}
  {
    hide Replaced, StageStatus, Adds, Disk.Logged, WritesByCase, ReachesPublish;
    ghost var m, ops := disk.Tree(), disk.ops;
    writes := [];
    Clear(disk, product);
    if !env.stagingOk {
      RunDecided(m, product, env);
      return [Failed], true;
    }
    ghost var cleared := disk.ops;
    SetDirectory(disk, product, map[]);
    AddsTwice(ops, cleared, disk.ops, Places(product));
    assert Staged(disk, product, env, m, 0, map[]);
    assert At(disk, product, env, m, ops, 0);
    hide At;
    var i: nat := 0;
    ghost var stop := env.PassedFrom(0);
    assert stop == env.PassedFrom(i);
    while i < 4
      invariant i <= 4 && stop == env.PassedFrom(i)
      invariant writes == STAGES[..i]
      invariant disk.Valid() && At(disk, product, env, m, ops, i)
    {
      if env.cancelled(i) {
        writes := writes + [Cancelled];
        RemoveStaging(disk, product, env, m, ops, i);
        RunDecided(m, product, env);
        return writes, true;
      }
      writes := writes + [StageStatus(i)];
      StagesGrow(i);
      var ok := RunStage(disk, product, env, m, ops, i);
      if !ok {
        writes := writes + [Failed];
        RemoveStaging(disk, product, env, m, ops, i);
        RunDecided(m, product, env);
        return writes, true;
      }
      i := i + 1;
    }
    writes := writes + [Success];
    RemoveStaging(disk, product, env, m, ops, 4);
    RunDecided(m, product, env);
    return writes, false;
  }

  lemma StagesGrow(i: Stage)
    ensures STAGES[..i + 1] == STAGES[..i] + [StageStatus(i)]
  {
  }

  /** The disk when i stages have passed: staging as the last stage left it, or production published;
      the run has touched only the places of its product since the record `ops`. */
  ghost predicate At(disk: Disk, product: string, env: Env, m: Entries, ops: seq<FileOp>, i: nat)
    reads disk
  {
    && Adds(ops, disk.ops, Places(product))
    && if i >= 3 then disk.root == Dir(Replaced(m, product, env))
       else exists es :: Staged(disk, product, env, m, i, es)
  }

  ghost predicate Staged(disk: Disk, product: string, env: Env, m: Entries, i: nat, es: Entries)
    reads disk
  {
    disk.root == Dir((m - {StagingName(product)})[StagingName(product) := Dir(es)]) && (i == 2 ==> es == env.signed)
  }

  /** Removes the staging tree. */
  method Clear(disk: Disk, product: string)
    requires disk.Valid()
    modifies disk
    ensures disk.Valid() && Adds(old(disk.ops), disk.ops, Places(product))
    ensures disk.Tree() == old(disk.Tree()) - {StagingName(product)}
  {
    hide Cut, Disk.Logged;
    CutShort(disk.Tree(), StagingName(product), "");
    disk.RemoveAll([StagingName(product)]);
  }

  /** Staging is made, or filled by a stage. */
  method SetDirectory(disk: Disk, product: string, es: Entries)
    requires disk.Valid()
    modifies disk
    ensures disk.Valid() && Adds(old(disk.ops), disk.ops, Places(product))
    ensures disk.Tree() == old(disk.Tree())[StagingName(product) := Dir(es)]
  {
    hide Put, Disk.Logged;
    PutShort(disk.Tree(), StagingName(product), "", Dir(es));
    disk.Store([StagingName(product)], Dir(es));
  }

  method RunStage(disk: Disk, product: string, env: Env, ghost m: Entries, ghost ops: seq<FileOp>, i: Stage)
      returns (ok: bool)
    requires disk.Valid() && At(disk, product, env, m, ops, i) && Lists(env.oldestFirst)
    modifies disk
    ensures ok == env.StageOk(i)
    ensures (i == 0 ==> ok == env.buildOk) && (i == 1 ==> ok == env.signOk)
    ensures (i == 2 ==> ok) && (i == 3 ==> ok == env.verifyOk)
    ensures disk.Valid() && At(disk, product, env, m, ops, if ok then i + 1 else i)
  {
    hide Replaced, Adds, Disk.Logged;
    if i == 3 {
      return env.verifyOk;
    }
    ghost var es :| Staged(disk, product, env, m, i, es);
    ghost var before := disk.ops;
    if i == 2 {
      ok := PublishStage(disk, product, env, m);
    } else {
      ghost var s := StagingName(product);
      var left := if i == 0 then env.built else env.signed;
      SetDirectory(disk, product, left);
      assert (m - {s})[s := Dir(es)][s := Dir(left)] == (m - {s})[s := Dir(left)];
      ok := if i == 0 then env.buildOk else env.signOk;
      assert Staged(disk, product, env, m, if ok then i + 1 else i, left);
    }
    AddsTwice(ops, before, disk.ops, Places(product));
  }

  method PublishStage(disk: Disk, product: string, env: Env, ghost m: Entries) returns (ok: bool)
    requires disk.Valid() && Staged(disk, product, env, m, 2, env.signed) && Lists(env.oldestFirst)
    modifies disk
    ensures ok && disk.Valid() && Adds(old(disk.ops), disk.ops, Places(product))
    ensures disk.root == Dir(Replaced(m, product, env))
  {
    hide Published, Adds, Disk.Logged;
    ghost var now, s := disk.Tree(), StagingName(product);
    assert product != s by { assert |product| != |s|; }
    assert Lookup(now, product) == Lookup(m, product) && now - {s} == m - {s};
    ok := StagePublish(disk, product, env.timestamp, env.rollbackKeep, env.read, env.oldestFirst);
  }

  method RemoveStaging(disk: Disk, product: string, env: Env, ghost m: Entries, ghost ops: seq<FileOp>,
                       ghost passed: nat)
    requires disk.Valid() && At(disk, product, env, m, ops, passed)
    modifies disk
    ensures disk.Valid() && Adds(ops, disk.ops, Places(product))
    ensures disk.Tree() == if passed < 3 then m - {StagingName(product)} else Replaced(m, product, env)
  {
    hide Published, Adds, Disk.Logged;
    ghost var now, before, s := disk.Tree(), disk.ops, StagingName(product);
    assert product != s by { assert |product| != |s|; }
    if passed < 3 {
      ghost var es :| Staged(disk, product, env, m, passed, es);
      assert now - {s} == m - {s};
    } else {
      assert now - {s} == now;
    }
    Clear(disk, product);
    AddsTwice(ops, before, disk.ops, Places(product));
  }

  // ---- the same run as the goroutine of BuildProtocol ----

  /** One step of the goroutine when its calls answer as in env. */
  function StepIn(t: BuildProtocol.Thread, env: Env): BuildProtocol.Thread {
    match t.pc
    case MakingStaging => BuildProtocol.NextThread(t, env.stagingOk, true)
    case Checking(i) => BuildProtocol.NextThread(t.(cancelled := env.cancelled(i)), true, true)
    case Running(i) => BuildProtocol.NextThread(t, env.StageOk(i), true)
    case _ => BuildProtocol.NextThread(t, true, true)
  }

  function StepsIn(t: BuildProtocol.Thread, env: Env, n: nat): BuildProtocol.Thread
    decreases n
  {
    if n == 0 then t else StepsIn(StepIn(t, env), env, n - 1)
  }

  lemma {:induction false} StepsAdd(t: BuildProtocol.Thread, env: Env, n: nat, k: nat)
    ensures StepsIn(t, env, n + k) == StepsIn(StepsIn(t, env, n), env, k)
    decreases n
  {
    hide StepIn;
    if n > 0 { StepsAdd(StepIn(t, env), env, n - 1, k); }
  }

  /** One stage of the goroutine takes three steps. */
  lemma OneStage(t: BuildProtocol.Thread, env: Env, i: Stage)
    requires t.pc == BuildProtocol.Checking(i) && !env.cancelled(i)
    ensures var t' := StepsIn(t, env, 3);
      && t'.writes == t.writes + [StageStatus(i)] && t'.begun == t.begun + 1 && t'.product == t.product
      && t'.pc == (if !env.StageOk(i) then BuildProtocol.Finishing(Failed, true)
                   else if i == 3 then BuildProtocol.Finishing(Success, true) else BuildProtocol.Checking(i + 1))
      && t'.passed == t.passed + (if env.StageOk(i) then 1 else 0)
  {
    var t1 := StepIn(t, env);
    var t2 := StepIn(t1, env);
    assert t1.pc == BuildProtocol.Announcing(i) && t2.pc == BuildProtocol.Running(i);
    assert StepsIn(t, env, 3) == StepsIn(t1, env, 2) == StepsIn(t2, env, 1) == StepIn(t2, env);
  }

  /** The last steps: a check that finds a cancellation, or the end of the pipeline, and the final write. */
  lemma LastSteps(t: BuildProtocol.Thread, env: Env, i: Stage)
    requires t.pc == BuildProtocol.Checking(i) && env.cancelled(i)
    ensures var t' := StepsIn(t, env, 2);
      && t'.pc == BuildProtocol.RemovingStaging && t'.passed == t.passed && t'.begun == t.begun
      && t'.writes == t.writes + [Cancelled]
  {
    var t1 := StepIn(t, env);
    assert StepsIn(t, env, 2) == StepsIn(t1, env, 1) == StepIn(t1, env);
  }

  lemma LastWrite(t: BuildProtocol.Thread, env: Env)
    requires t.pc.Finishing? && t.pc.staged
    ensures var t' := StepsIn(t, env, 1);
      && t'.pc == BuildProtocol.RemovingStaging && t'.passed == t.passed && t'.begun == t.begun
      && t'.writes == t.writes + [t.pc.status]
  {
    assert StepsIn(t, env, 1) == StepIn(t, env);
  }

  /** What is left of a run from the check before stage i on. */
  function BegunFrom(env: Env, i: nat): nat
    requires i <= 4
  {
    var stop := env.PassedFrom(i);
    if stop == 4 || env.cancelled(stop) then stop else stop + 1
  }

  function OutcomeFrom(env: Env, i: nat): Status
    requires i <= 4
  {
    var stop := env.PassedFrom(i);
    if stop == 4 then Success else if env.cancelled(stop) then Cancelled else Failed
  }

  /** What the goroutine has done from the check before stage i on, when its last status is written. */
  predicate AgreesFrom(t: BuildProtocol.Thread, t': BuildProtocol.Thread, env: Env, i: Stage) {
    && i <= BegunFrom(env, i) <= 4
    && t'.pc == BuildProtocol.RemovingStaging
    && t'.passed == t.passed + env.PassedFrom(i) - i && t'.begun == t.begun + BegunFrom(env, i) - i
    && t'.writes == t.writes + STAGES[i..BegunFrom(env, i)] + [OutcomeFrom(env, i)]
  }

  lemma {:induction false} StagesAgree(t: BuildProtocol.Thread, env: Env, i: Stage) returns (n: nat)
    requires t.pc == BuildProtocol.Checking(i)
    ensures AgreesFrom(t, StepsIn(t, env, n), env, i)
    decreases 4 - i
  {
    hide StepIn, StepsIn, AgreesFrom;
    if env.cancelled(i) {
      n := 2;
      LastSteps(t, env, i);
      AgreesAtOnce(t, StepsIn(t, env, 2), env, i);
    } else {
      OneStage(t, env, i);
      var t3 := StepsIn(t, env, 3);
      if env.StageOk(i) && i < 3 {
        var k := StagesAgree(t3, env, i + 1);
        n := 3 + k;
        StepsAdd(t, env, 3, k);
        AgreesLater(t, t3, StepsIn(t3, env, k), env, i);
      } else {
        n := 4;
        StepsAdd(t, env, 3, 1);
        LastWrite(t3, env);
        AgreesLast(t, StepsIn(t3, env, 1), env, i);
      }
    }
  }

  lemma AgreesAtOnce(t: BuildProtocol.Thread, t': BuildProtocol.Thread, env: Env, i: Stage)
    requires env.cancelled(i) && t'.pc == BuildProtocol.RemovingStaging
    requires t'.passed == t.passed && t'.begun == t.begun && t'.writes == t.writes + [Cancelled]
    ensures AgreesFrom(t, t', env, i)
  {
  }

  lemma AgreesLater(t: BuildProtocol.Thread, t3: BuildProtocol.Thread, t': BuildProtocol.Thread, env: Env, i: Stage)
    requires i < 3 && !env.cancelled(i) && env.StageOk(i) && AgreesFrom(t3, t', env, i + 1)
    requires t3.passed == t.passed + 1 && t3.begun == t.begun + 1 && t3.writes == t.writes + [StageStatus(i)]
    ensures AgreesFrom(t, t', env, i)
  {
    hide Env.StageOk;
    StageSlice(i);
    assert [StageStatus(i)] + STAGES[i + 1..BegunFrom(env, i)] == STAGES[i..BegunFrom(env, i)];
  }

  lemma AgreesLast(t: BuildProtocol.Thread, t': BuildProtocol.Thread, env: Env, i: Stage)
    requires !env.cancelled(i) && (env.StageOk(i) ==> i == 3) && t'.pc == BuildProtocol.RemovingStaging
    requires t'.passed == t.passed + (if env.StageOk(i) then 1 else 0) && t'.begun == t.begun + 1
    requires t'.writes == t.writes + [StageStatus(i)] + [if env.StageOk(i) then Success else Failed]
    ensures AgreesFrom(t, t', env, i)
  {
    StageSlice(i);
  }

  lemma StageSlice(i: Stage)
    ensures STAGES[i..i + 1] == [StageStatus(i)]
  {
  }

  /** The goroutine of a new build writes and passes exactly what Run does. */
  lemma GoroutineAgrees(product: int, env: Env) returns (n: nat)
    ensures var start := BuildProtocol.Thread(product, BuildProtocol.Starting, false, [Pending], [true], 0, 0);
      var t := StepsIn(start, env, n);
      && (t.pc == BuildProtocol.RemovingStaging || t.pc == BuildProtocol.Unregistering)
      && t.writes == [Pending] + STAGES[..env.Begun()] + [env.Outcome()]
      && t.passed == env.Passed() && t.begun == env.Begun() && false !in t.stored
  {
    var t := BuildProtocol.Thread(product, BuildProtocol.Starting, false, [Pending], [true], 0, 0);
    var t2 := StepIn(StepIn(t, env), env);
    assert StepsIn(t, env, 2) == StepsIn(StepIn(t, env), env, 1) == t2;
    if env.stagingOk {
      var k := StagesAgree(t2, env, 0);
      n := 2 + k;
      StepsAdd(t, env, 2, k);
      NothingMissed(t, env, n);
      assert STAGES[0..env.Begun()] == STAGES[..env.Begun()];
    } else {
      n := 3;
      StepsAdd(t, env, 2, 1);
      assert StepsIn(t2, env, 1) == StepIn(t2, env);
    }
  }

  lemma {:induction false} NothingMissed(t: BuildProtocol.Thread, env: Env, n: nat)
    requires false !in t.stored
    ensures false !in StepsIn(t, env, n).stored
    decreases n
  {
    if n > 0 { NothingMissed(StepIn(t, env), env, n - 1); }
  }
}
