/** How builds end: every build can finish, which build a cancellation reaches, and when a product
    can be built again (internal/service/build_service.go). */
module BuildEndings {
  import opened BuildStatus
  import opened Subsequences
  import opened BuildProtocol
  import opened BuildGuarantees
  import opened BuildService

  // ---- every build can finish ----

  /** Steps left to the TriggerBuild that holds the mutex. */
  function Holding(mutex: Mutex): nat {
    match mutex
    case Free => 0
    case AtStart(_, _) => 1
    case AtWriter(_, _) => 2
    case AtLog(_, _) => 3
    case AtCreate(_) => 4
    case AtRows(_) => 5
    case AtRunning(_) => 6
  }

  // What the calls of a run answer, by the number of the step.
  datatype Answers = Answers(ok: nat -> bool, dbOk: nat -> bool)

  /** Only the build `id` and the TriggerBuild that holds the mutex take steps, with these answers. */
  predicate OnlyAbout(actions: seq<Action>, id: nat, answers: Answers) {
    forall i :: 0 <= i < |actions| ==>
      actions[i] == Step(id, answers.ok(i), answers.dbOk(i)) || actions[i] == Trigger(answers.ok(i), answers.dbOk(i))
  }

  ghost function Left(s: State, id: nat): nat
    requires id in s.threads
  {
    Remaining(s.threads[id].pc) + Holding(s.mutex)
  }

  lemma HolderMoves(s: State, ok: bool, dbOk: bool)
    requires s.mutex != Free
    ensures Holding(NextTrigger(s, ok, dbOk).mutex) + 1 <= Holding(s.mutex)
  {
    hide HasRunning, Write;
  }

  /** The next step towards the end of a build: its own, or one of the TriggerBuild it waits for. */
  lemma NextTowardsEnd(s: State, id: nat, ok: bool, dbOk: bool) returns (a: Action)
    requires Inv(s) && id in s.threads && s.threads[id].pc != Done
    ensures a == Step(id, ok, dbOk) || a == Trigger(ok, dbOk)
    ensures Enabled(s, a) && id in Next(s, a).threads && Left(Next(s, a), id) < Left(s, id)
  {
    hide NextTrigger, NextStep, Remaining;
    MutexHolds(s);
    a := if s.threads[id].pc == Unregistering && s.mutex != Free then Trigger(ok, dbOk) else Step(id, ok, dbOk);
    StepCounts(s, a, id);
    if a.Trigger? {
      HolderMoves(s, ok, dbOk);
    } else {
      MutexStays(s, id, ok, dbOk);
    }
  }

  lemma MutexStays(s: State, id: nat, ok: bool, dbOk: bool)
    requires id in s.threads
    ensures NextStep(s, id, ok, dbOk).mutex == s.mutex
  {
  }

  /** From any state of any run a build can end within 25 steps, all its own or of the one TriggerBuild that
      holds the mutex, whatever their calls answer; then nothing of it is left. */
  lemma CanEnd(s: State, id: nat, answers: Answers) returns (actions: seq<Action>)
    requires Inv(s) && id in s.threads
    ensures |actions| <= 25 && OnlyAbout(actions, id, answers) && LegalRun(s, actions)
    ensures var s' := Run(s, actions);
      && id in s'.threads && s'.threads[id].pc == Done
      && id !in s'.writers && forall p :: p in s'.running ==> s'.running[p] != id
  {
    hide Inv, Next, Enabled, Remaining, Holding;
    AtMost25(s, id);
    actions := [];
    while Run(s, actions).threads[id].pc != Done
      invariant LegalRun(s, actions) && Inv(Run(s, actions)) && id in Run(s, actions).threads
      invariant OnlyAbout(actions, id, answers)
      invariant |actions| + Left(Run(s, actions), id) <= 25
      decreases Left(Run(s, actions), id)
    {
      var now, n := Run(s, actions), |actions|;
      var a := NextTowardsEnd(now, id, answers.ok(n), answers.dbOk(n));
      NextInv(now, a);
      assert (actions + [a])[..n] == actions;
      actions := actions + [a];
    }
    DoneIsClean(s, actions, id);
  }

  lemma AtMost25(s: State, id: nat)
    requires id in s.threads
    ensures Left(s, id) <= 25
  {
  }

  // ---- which build a cancellation reaches ----

  /** A CancelBuild that is not interrupted: it picks up a cancel function and calls it. */
  function Cancelled(s: State, product: int): State {
    if product in s.running then Next(Next(s, PickCancel(product)), FireCancel(s.running[product])) else s
  }

  /** The registered build of a product is the newest build of that product. */
  ghost predicate NewestRegistered(s: State) {
    && (forall p, id :: p in s.running && id in s.rows && s.rows[id].product == p ==> id <= s.running[p])
    && (s.mutex.AtLog? || s.mutex.AtWriter? || s.mutex.AtStart? ==> s.nextId == s.mutex.id + 1)
  }

  lemma TriggerNewest(s: State, ok: bool, dbOk: bool)
    requires Inv(s) && NewestRegistered(s) && s.mutex != Free
    ensures NewestRegistered(NextTrigger(s, ok, dbOk))
  {
    hide ThreadOk, Live, HasWriter, HasRunning;
  }

  lemma StepNewest(s: State, id: nat, ok: bool, dbOk: bool)
    requires Inv(s) && NewestRegistered(s) && Enabled(s, Step(id, ok, dbOk))
    ensures NewestRegistered(NextStep(s, id, ok, dbOk))
  {
    hide NextStep, NextThread, ThreadOk, Live, HasWriter;
    StepShape(s, id, ok, dbOk);
    OtherUnchanged(s, id, ok, dbOk);
  }

  lemma {:induction false} RunNewest(start: State, actions: seq<Action>)
    requires Initial(start) && LegalRun(start, actions)
    ensures NewestRegistered(Run(start, actions))
  {
    if actions != [] {
      hide Inv, NextTrigger, NextStep, NewestRegistered;
      var before, a := actions[..|actions| - 1], actions[|actions| - 1];
      RunNewest(start, before);
      InitialInv(start);
      RunInv(start, before);
      NextNewest(Run(start, before), a);
    }
  }

  lemma InitialInv(s: State)
    requires Initial(s)
    ensures Inv(s)
  {
  }

  lemma NextNewest(s: State, a: Action)
    requires Inv(s) && NewestRegistered(s) && Enabled(s, a)
    ensures NewestRegistered(Next(s, a))
  {
    hide Inv, NextTrigger, NextStep;
    match a
    case Trigger(ok, dbOk) => TriggerNewest(s, ok, dbOk);
    case Step(id, ok, dbOk) => StepNewest(s, id, ok, dbOk);
    case _ =>
  }

  /** The goroutine of a build has not yet left `running`. */
  predicate IsRegistered(s: State, id: nat) {
    id in s.threads && Live(s.threads[id].pc)
  }

  /** In every run, cancelling through a build id cancels that build exactly while its goroutine has not left
      `running`; after that it cancels the build of the product that is registered then, if there is one,
      which is a later build. It cancels nothing else. */
  lemma CancelReaches(start: State, actions: seq<Action>, id: nat)
    requires Initial(start) && LegalRun(start, actions)
    requires id in Run(start, actions).rows
    ensures var s := Run(start, actions);
      var product := s.rows[id].product;
      && (product in s.running && s.running[product] == id <==> IsRegistered(s, id))
      && (product in s.running && !IsRegistered(s, id) ==>
            s.running[product] > id && IsRegistered(s, s.running[product]))
      && Cancelled(s, product).threads.Keys == s.threads.Keys
      && forall j :: j in s.threads ==>
           Cancelled(s, product).threads[j] ==
             if product in s.running && j == s.running[product] then s.threads[j].(cancelled := true)
             else s.threads[j]
  {
    hide Run, LegalRun, Inv, NewestRegistered;
    InitialInv(start);
    RunInv(start, actions);
    RunNewest(start, actions);
    CancelInState(Run(start, actions), id);
  }

  lemma CancelInState(s: State, id: nat)
    requires Inv(s) && NewestRegistered(s) && id in s.rows
    ensures var product := s.rows[id].product;
      && (product in s.running && s.running[product] == id <==> IsRegistered(s, id))
      && (product in s.running && !IsRegistered(s, id) ==>
            s.running[product] > id && IsRegistered(s, s.running[product]))
      && Cancelled(s, product).threads.Keys == s.threads.Keys
      && forall j :: j in s.threads ==>
           Cancelled(s, product).threads[j] ==
             if product in s.running && j == s.running[product] then s.threads[j].(cancelled := true)
             else s.threads[j]
  {
    hide Progress, Stored, Live;
  }

  // ---- when the row of a build says that it is running ----

  /** The build has tried to write its terminal status. */
  predicate Finished(pc: Pc) {
    pc.RemovingStaging? || pc.Unregistering? || pc.DroppingWriter? || pc.ClosingLog? || pc.Done?
  }

  /** The build has written its terminal status and the database took it. */
  predicate Recorded(t: Thread) {
    Finished(t.pc) && t.stored != [] && t.stored[|t.stored| - 1]
  }

  /** The row of a build counts as running exactly until its terminal status is stored. */
  lemma RunningUntilRecorded(t: Thread, row: Row)
    requires ThreadOk(t, row) && row.Valid()
    ensures row.Running() <==> !Recorded(t)
  {
    hide Stored, InStages;
    if Finished(t.pc) {
      RowOfEnded(t, row);
    } else {
      UnfinishedRuns(t, row, t.begun);
    }
  }

  lemma RowOfEnded(t: Thread, row: Row)
    requires Ended(t.writes, t.begun) && row.Valid()
    requires |t.stored| == |t.writes| && row.log == Stored(t.writes, t.stored)
    ensures row.Running() <==> !t.stored[|t.stored| - 1]
  {
    hide InStages;
    var n := |t.writes| - 1;
    if !t.stored[n] {
      assert row.log == Stored(t.writes[..n], t.stored[..n]);
      StoredAreWrites(t.writes[..n], t.stored[..n]);
      SubsequenceMember(row.log, t.writes[..n], row.Status());
      StagesRun(t.writes[..n], t.begun);
    }
  }

  /** A build whose row is still running and whose writes were all stored is always reached. */
  lemma RunningIsReached(start: State, actions: seq<Action>, id: nat)
    requires Initial(start) && LegalRun(start, actions)
    requires var s := Run(start, actions);
      id in s.threads && id in s.rows && s.rows[id].Running() && false !in s.threads[id].stored
    ensures IsRegistered(Run(start, actions), id)
  {
    hide Run, LegalRun, ThreadOk;
    InitialInv(start);
    RunInv(start, actions);
    var s := Run(start, actions);
    RunningUntilRecorded(s.threads[id], s.rows[id]);
    EndedHasWrites(s.threads[id], s.rows[id]);
  }

  lemma EndedHasWrites(t: Thread, row: Row)
    requires ThreadOk(t, row)
    ensures t.stored != []
    ensures !Live(t.pc) ==> Finished(t.pc)
  {
  }

  const ALL_OK := Calls(true, true, true, true)

  /** The rows of a product that keep a new build from starting. */
  predicate Blocks(s: State, product: int, id: nat) {
    && id in s.rows && s.rows[id].product == product
    && if id in s.threads then !Recorded(s.threads[id]) else s.rows[id].Running()
  }

  /** A product can be built again exactly when it is not registered and each of its builds that ran in this
      process has stored its terminal status; rows of other processes count by their status. */
  lemma CanBuildAgain(s: State, product: int)
    requires Inv(s) && s.mutex == Free
    ensures product !in s.running && (forall id :: !Blocks(s, product, id)) <==>
      product !in s.running && product in Triggered(s, product, ALL_OK).running
  {
    hide ThreadOk, Recorded, Triggered, Registered, OneRunning, WritersOk, ArmedOk;
    TriggeredIs(s, product, ALL_OK);
    forall id | id in s.rows
      ensures Blocks(s, product, id) <==> s.rows[id].product == product && s.rows[id].Running()
    {
      if id in s.threads {
        RunningUntilRecorded(s.threads[id], s.rows[id]);
      }
    }
    if HasRunning(s.rows, product) {
      var id :| id in s.rows && s.rows[id].product == product && s.rows[id].Running();
      assert Blocks(s, product, id);
    }
  }

  /** Once a build has left `running` and its product can be built again, a new build of the product starts,
      and from then on a cancellation through the old id cancels the new build and not the old one. */
  lemma OldIdCancelsNewBuild(s: State, id: nat)
    requires Inv(s) && NewestRegistered(s) && s.mutex == Free && id in s.rows
    requires var product := s.rows[id].product; product !in s.running && forall i :: !Blocks(s, product, i)
    ensures var product := s.rows[id].product;
      var s' := Triggered(s, product, ALL_OK);
      && s.nextId > id && s.nextId in s'.threads && !s'.threads[s.nextId].cancelled
      && id in s'.rows && s'.rows[id] == s.rows[id]
      && s.nextId in Cancelled(s', product).threads && Cancelled(s', product).threads[s.nextId].cancelled
      && (id in s.threads ==>
            id in Cancelled(s', product).threads && Cancelled(s', product).threads[id] == s.threads[id])
  {
    hide Triggered, Inv, HasRunning, Blocks;
    var product := s.rows[id].product;
    CanBuildAgain(s, product);
    TriggeredIs(s, product, ALL_OK);
    IdsBelowNext(s, id);
  }

  lemma IdsBelowNext(s: State, id: nat)
    requires Inv(s)
    ensures id in s.rows ==> id < s.nextId
    ensures id in s.threads ==> id < s.nextId
  {
  }
}
