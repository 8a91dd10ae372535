/** What holds in every interleaving of triggers, builds, cancellations and exits. */
module BuildGuarantees {
  import opened BuildStatus
  import opened Subsequences
  import opened BuildProtocol

  /** At every point of every run each product has at most one registered goroutine and one running row,
      an exiting goroutine deletes its own entry, and a running map entry names a registered goroutine. */
  lemma OneBuildAtATime(start: State, actions: seq<Action>)
    requires Initial(start) && LegalRun(start, actions)
    ensures var s := Run(start, actions);
      && OneRunning(s.rows)
      && (forall i, j | i in s.threads && j in s.threads && Live(s.threads[i].pc) && Live(s.threads[j].pc) ::
            s.threads[i].product == s.threads[j].product ==> i == j)
      && (forall id | id in s.threads && s.threads[id].pc == Unregistering ::
            s.threads[id].product in s.running && s.running[s.threads[id].product] == id)
  {
    hide ThreadOk, Run, LegalRun;
    RunInv(start, actions);
  }

  /** The statuses of a build: what it tried to write is a prefix of the stages and then at most one
      terminal status; the row has exactly those whose write did not fail; success means all four stages passed. */
  lemma StatusHistory(start: State, actions: seq<Action>, id: nat)
    requires Initial(start) && LegalRun(start, actions)
    requires id in Run(start, actions).threads
    ensures var s := Run(start, actions);
      var t := s.threads[id];
      && id in s.rows && t.begun <= 4
      && StagesInOrder(t.writes, t.begun)
      && |t.stored| == |t.writes| && s.rows[id].log == Stored(t.writes, t.stored)
      && (Success in s.rows[id].log ==> t.passed == 4)
  {
    hide Run, LegalRun, Subsequence, Stored;
    RunInv(start, actions);
    var s := Run(start, actions);
    var t, log := s.threads[id], s.rows[id].log;
    ProgressOrder(t);
    StoredAreWrites(t.writes, t.stored);
    if Success in log {
      SubsequenceMember(log, t.writes, Success);
      SuccessPassed(t);
    }
  }

  lemma ProgressOrder(t: Thread)
    requires Progress(t)
    ensures StagesInOrder(t.writes, t.begun)
  {
    hide InStages, Ended;
  }

  lemma SuccessPassed(t: Thread)
    requires Progress(t) && Success in t.writes
    ensures t.passed == 4
  {
    var n := |t.writes| - 1;
    if InStages(t.writes, t.begun) {
      StagesRun(t.writes, t.begun);
      assert false;
    }
    ProgressOrder(t);
    StagesRun(t.writes[..n], t.begun);
    assert t.writes == t.writes[..n] + [t.writes[n]];
  }

  /** A row with a terminal status is never written again. */
  lemma TerminalIsFinal(s: State, a: Action, id: nat)
    requires Inv(s) && Enabled(s, a) && id in s.rows && !s.rows[id].Running()
    ensures id in Next(s, a).rows && Next(s, a).rows[id] == s.rows[id]
  {
    match a
    case Trigger(ok, dbOk) => TriggerLeavesTerminal(s, ok, dbOk, id);
    case Step(i, ok, dbOk) => StepLeavesTerminal(s, i, ok, dbOk, id);
    case _ =>
  }

  lemma TriggerLeavesTerminal(s: State, ok: bool, dbOk: bool, id: nat)
    requires MutexOk(s) && RowsOk(s) && id in s.rows && !s.rows[id].Running()
    ensures id in NextTrigger(s, ok, dbOk).rows && NextTrigger(s, ok, dbOk).rows[id] == s.rows[id]
  {
  }

  lemma StepLeavesTerminal(s: State, i: nat, ok: bool, dbOk: bool, id: nat)
    requires ThreadsOk(s) && RowsOk(s) && i in s.threads && id in s.rows && !s.rows[id].Running()
    ensures id in NextStep(s, i, ok, dbOk).rows && NextStep(s, i, ok, dbOk).rows[id] == s.rows[id]
  {
    hide Stored, InStages, Ended;
    if i == id {
      var t := s.threads[id];
      if t.pc.Announcing? || t.pc.Finishing? {
        UnfinishedRuns(t, s.rows[id], t.begun);
      }
    }
  }

  lemma {:induction false} TerminalStays(s: State, actions: seq<Action>, id: nat)
    requires Inv(s) && LegalRun(s, actions) && id in s.rows && !s.rows[id].Running()
    ensures id in Run(s, actions).rows && Run(s, actions).rows[id] == s.rows[id]
  {
    if actions != [] {
      hide Inv, Next, Enabled;
      var before := actions[..|actions| - 1];
      TerminalStays(s, before, id);
      RunInv(s, before);
      TerminalIsFinal(Run(s, before), actions[|actions| - 1], id);
    }
  }

  /** The stages a build has begun, or will begin because it already passed the check for one. */
  function Committed(t: Thread): nat {
    t.begun + if t.pc.Announcing? then 1 else 0
  }

  lemma CancelledCommits(s: State, a: Action, id: nat)
    requires Inv(s) && Enabled(s, a) && id in s.threads && s.threads[id].cancelled
    ensures id in Next(s, a).threads && Next(s, a).threads[id].cancelled
    ensures Committed(Next(s, a).threads[id]) <= Committed(s.threads[id])
  {
    hide Next, ThreadOk;
    ThreadAfter(s, a, id);
  }

  /** Once a build's context is cancelled, no stage begins except one whose check had already passed. */
  lemma {:induction false} CancelStopsStages(s: State, actions: seq<Action>, id: nat)
    requires Inv(s) && LegalRun(s, actions) && id in s.threads && s.threads[id].cancelled
    ensures var s' := Run(s, actions);
      && id in s'.threads && s'.threads[id].cancelled
      && s'.threads[id].begun <= Committed(s'.threads[id]) <= Committed(s.threads[id])
  {
    if actions != [] {
      hide Inv, Next, Enabled;
      var before := actions[..|actions| - 1];
      CancelStopsStages(s, before, id);
      RunInv(s, before);
      CancelledCommits(Run(s, before), actions[|actions| - 1], id);
    }
  }

  /** Steps a goroutine can still take. */
  function Remaining(pc: Pc): nat {
    match pc
    case Starting => 19
    case MakingStaging => 18
    case Checking(i) => 17 - 3 * i
    case Announcing(i) => 16 - 3 * i
    case Running(i) => 15 - 3 * i
    case Finishing(_, _) => 5
    case RemovingStaging => 4
    case Unregistering => 3
    case DroppingWriter => 2
    case ClosingLog => 1
    case Done => 0
  }

  function StepsOf(actions: seq<Action>, id: nat): nat {
    if actions == [] then 0
    else
      var a := actions[|actions| - 1];
      StepsOf(actions[..|actions| - 1], id) + if a.Step? && a.id == id then 1 else 0
  }

  lemma StepUsesOne(t: Thread, ok: bool, dbOk: bool)
    requires t.pc != Done
    ensures Remaining(NextThread(t, ok, dbOk).pc) + 1 <= Remaining(t.pc)
  {
    hide Wrote;
  }

  lemma StepCounts(s: State, a: Action, id: nat)
    requires MutexOk(s) && Enabled(s, a) && id in s.threads
    ensures id in Next(s, a).threads
    ensures Remaining(Next(s, a).threads[id].pc) + (if a.Step? && a.id == id then 1 else 0)
      <= Remaining(s.threads[id].pc)
  {
    hide Next, NextThread, Remaining;
    ThreadAfter(s, a, id);
    if a.Step? && a.id == id {
      StepUsesOne(s.threads[id], a.ok, a.dbOk);
    }
  }

  /** A goroutine takes at most 19 steps in any run, and when it is done nothing of it is left. */
  lemma {:induction false} BuildsEnd(s: State, actions: seq<Action>, id: nat)
    requires Inv(s) && LegalRun(s, actions) && id in s.threads
    ensures var s' := Run(s, actions);
      && id in s'.threads
      && StepsOf(actions, id) + Remaining(s'.threads[id].pc) <= Remaining(s.threads[id].pc) <= 19
      && (s'.threads[id].pc == Done ==> id !in s'.writers && forall p :: p in s'.running ==> s'.running[p] != id)
  {
    if actions != [] {
      hide Inv, Next, Enabled, Remaining;
      var before := actions[..|actions| - 1];
      BuildsEnd(s, before, id);
      RunInv(s, before);
      MutexHolds(Run(s, before));
      StepCounts(Run(s, before), actions[|actions| - 1], id);
    }
    DoneIsClean(s, actions, id);
    AtMost19(s.threads[id].pc);
  }

  lemma MutexHolds(s: State)
    requires Inv(s)
    ensures MutexOk(s)
  {
  }

  lemma AtMost19(pc: Pc)
    ensures Remaining(pc) <= 19
  {
  }

  lemma DoneIsClean(s: State, actions: seq<Action>, id: nat)
    requires Inv(s) && LegalRun(s, actions)
    ensures var s' := Run(s, actions);
      id in s'.threads && s'.threads[id].pc == Done ==>
        id !in s'.writers && forall p :: p in s'.running ==> s'.running[p] != id
  {
    hide Run, LegalRun, ThreadOk;
    RunInv(s, actions);
  }
}
